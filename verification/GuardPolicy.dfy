/** Bringing a guard policy into its legal ranges: `normalize_guard_policy_with_home` of src/policy.rs, for
  * every numeric and list knob it touches. Percentages and counts are unbounded naturals here. */
module GuardPolicy {
  import opened Lexicographic

  // ---------------------------------------------------------------- floating point

  /** A floating-point knob as the policy file can spell it; `Finite(0.0)` stands for both zeros. */
  datatype Float = NaN | NegInf | PosInf | Finite(value: real)

  /** IEEE comparison: everything is false of a NaN. */
  predicate Below(a: Float, b: Float) {
    match (a, b)
    case (NaN, _) => false
    case (_, NaN) => false
    case (Finite(x), Finite(y)) => x < y
    case (NegInf, _) => b != NegInf
    case (_, PosInf) => a != PosInf
    case _ => false
  }

  predicate Same(a: Float, b: Float) { a != NaN && a == b }

  /** `f64::max` and `f64::min` return the operand that is a number. */
  function Max(a: Float, b: Float): Float { if a == NaN || Below(a, b) then b else a }

  function Min(a: Float, b: Float): Float { if a == NaN || Below(b, a) then b else a }

  predicate Within(x: Float, lo: real, hi: real) { x.Finite? && lo <= x.value <= hi }

  // ---------------------------------------------------------------- the policy

  datatype Knob =
    | Interval | AutoCleanupInterval | ReportRepeat | ProactiveCycles
    | DiskWarn | DiskEarlyWarn | DiskAction | DiskCritical | ProactiveCleanup | UnfreezeBelow
    | InodeWarn | MemAvailableWarn | SwapUsedWarn
    | ProcessCpu | ProcessRss | ProcessSustain | ProcessStuck | Renice | ReleaseAfter | NotifyCooldown
    | MemPsi | MemSwapin | MemSustain | TmuxSaveAge | TmuxSockets
    | GrowthWindow | GrowthMin | GrowthTargets | CapOffenders
    | RapidFill | GuardLogMax | LogMaxTruncate | LogPreserveHeader
    | CleanupMinSize | RustMaxAge | RelocateMinSize | RelocateMaxMoves | ReapMinIdle

  datatype Cadence = Cadence(interval: nat, autoCleanupInterval: nat, reportRepeat: nat, proactiveCycles: nat)

  datatype Disk = Disk(warn: nat, early: nat, action: nat, critical: nat, proactive: nat, unfreeze: nat,
                       inodeWarn: nat, memAvailableWarn: nat, swapUsedWarn: nat)

  datatype Process = Process(cpu: Float, rss: nat, sustain: nat, stuck: nat, renice: int, releaseAfter: nat,
                             notifyCooldown: nat)

  datatype Memory = Memory(psi: Float, swapin: nat, sustain: nat, saveAge: nat, sockets: seq<string>)

  datatype Growth = Growth(window: nat, minMb: nat, targets: seq<string>, capOffenders: nat)

  datatype Logging = Logging(rapidFill: Float, guardLogMax: nat, maxTruncate: nat, preserveHeader: nat)

  datatype Cleanup = Cleanup(minSize: nat, rustMaxAge: nat, relocateMinSize: nat, relocateMaxMoves: nat,
                             reapStale: bool, reapMinIdle: nat)

  datatype Policy = Policy(cadence: Cadence, disk: Disk, process: Process, memory: Memory, growth: Growth,
                           logging: Logging, cleanup: Cleanup)

  const GROWTH_MAX_MB: nat := 0xFFF_FFFF_FFFF // u64::MAX / (1024 * 1024)
  const MAX_SERVERS: nat := 8
  const MAX_TARGETS: nat := 16

  function Least(a: int, b: int): int { if a <= b then a else b }

  function Most(a: int, b: int): int { if a <= b then b else a }

  function Clamp(v: int, lo: int, hi: int): int { Least(Most(v, lo), hi) }

  /** The nearest number of the range; a NaN goes to the lower end. */
  function ClampFloat(x: Float, lo: real, hi: real): Float {
    match x
    case NaN => Finite(lo)
    case NegInf => Finite(lo)
    case PosInf => Finite(hi)
    case Finite(v) => Finite(if v < lo then lo else if v > hi then hi else v)
  }

  /** The `n` smallest distinct entries, in order. */
  function Shortlist(s: seq<string>, n: nat): seq<string> {
    var d := Dedup(Sort(s));
    if |d| <= n then d else d[..n]
  }

  // ---------------------------------------------------------------- legal policies

  predicate LegalCadence(c: Cadence) {
    c.interval >= 5 && c.autoCleanupInterval >= 60 && c.reportRepeat >= 60 && c.proactiveCycles >= 1
  }

  /** The four disk levels climb, and both early gates lie strictly below the action level. */
  predicate LegalDisk(d: Disk) {
    && 1 <= d.early <= d.warn <= d.action <= d.critical <= 100
    && d.proactive < d.action
    && 1 <= d.unfreeze < d.action
    && 1 <= d.inodeWarn <= 100
    && 1 <= d.memAvailableWarn <= 100
    && 1 <= d.swapUsedWarn <= 100
  }

  predicate LegalProcess(p: Process) {
    && Within(p.cpu, 1.0, 100000.0)
    && p.rss >= 64
    && 5 <= p.sustain <= p.stuck
    && 0 <= p.renice <= 19
    && p.releaseAfter >= 5
    && 5 <= p.notifyCooldown <= 86400
  }

  predicate LegalList(s: seq<string>, n: nat) { |s| <= n && |Dedup(Sort(s))| == |s| }

  predicate LegalMemory(m: Memory) {
    && Within(m.psi, 0.0, 100.0)
    && m.swapin >= 1
    && m.sustain >= 30
    && 60 <= m.saveAge <= 86400
    && LegalList(m.sockets, MAX_SERVERS)
  }

  predicate LegalGrowth(g: Growth) {
    && 60 <= g.window <= 86400
    && 1 <= g.minMb <= GROWTH_MAX_MB
    && LegalList(g.targets, MAX_TARGETS)
    && g.capOffenders <= 100
  }

  predicate LegalLogging(l: Logging) {
    Within(l.rapidFill, 0.5, 100000.0) && l.guardLogMax >= 1 && l.maxTruncate >= 1 && l.preserveHeader <= 10000
  }

  predicate LegalCleanup(c: Cleanup) {
    && c.minSize >= 1
    && c.rustMaxAge >= 1
    && c.relocateMinSize >= 1
    && c.relocateMaxMoves >= 1
    && (c.reapStale ==> c.reapMinIdle >= 1)
  }

  predicate Legal(p: Policy) {
    && LegalCadence(p.cadence)
    && LegalDisk(p.disk)
    && LegalProcess(p.process)
    && LegalMemory(p.memory)
    && LegalGrowth(p.growth)
    && LegalLogging(p.logging)
    && LegalCleanup(p.cleanup)
  }

  // ---------------------------------------------------------------- the normalized policy, in closed form

  function NormalCadence(c: Cadence): Cadence {
    Cadence(Most(c.interval, 5), Most(c.autoCleanupInterval, 60), Most(c.reportRepeat, 60), Most(c.proactiveCycles, 1))
  }

  /** A gate at or above the action level falls to one below it, but never to zero. */
  function Gate(level: nat, action: nat): nat
    requires action >= 1
  {
    if level >= action then Most(action - 1, 1) else level
  }

  function NormalDisk(d: Disk): Disk {
    var warn := Clamp(d.warn, 1, 100);
    var action := Clamp(d.action, warn, 100);
    Disk(warn,
         Least(Clamp(d.early, 1, 100), warn),
         action,
         Clamp(d.critical, action, 100),
         Gate(d.proactive, action),
         Gate(Clamp(d.unfreeze, 1, 100), action),
         Clamp(d.inodeWarn, 1, 100),
         Clamp(d.memAvailableWarn, 1, 100),
         Clamp(d.swapUsedWarn, 1, 100))
  }

  function NormalProcess(p: Process): Process {
    var sustain := Most(p.sustain, 5);
    Process(ClampFloat(p.cpu, 1.0, 100000.0), Most(p.rss, 64), sustain, Most(p.stuck, sustain), Clamp(p.renice, 0, 19),
            Most(p.releaseAfter, 5), Clamp(p.notifyCooldown, 5, 86400))
  }

  function NormalMemory(m: Memory): Memory {
    Memory(ClampFloat(m.psi, 0.0, 100.0), Most(m.swapin, 1), Most(m.sustain, 30), Clamp(m.saveAge, 60, 86400),
           Shortlist(m.sockets, MAX_SERVERS))
  }

  function NormalGrowth(g: Growth): Growth {
    Growth(Clamp(g.window, 60, 86400), Clamp(g.minMb, 1, GROWTH_MAX_MB), Shortlist(g.targets, MAX_TARGETS),
           Least(g.capOffenders, 100))
  }

  function NormalLogging(l: Logging): Logging {
    Logging(ClampFloat(l.rapidFill, 0.5, 100000.0), Most(l.guardLogMax, 1), Most(l.maxTruncate, 1),
            Least(l.preserveHeader, 10000))
  }

  function NormalCleanup(c: Cleanup): Cleanup {
    Cleanup(Most(c.minSize, 1), Most(c.rustMaxAge, 1), Most(c.relocateMinSize, 1), Most(c.relocateMaxMoves, 1),
            c.reapStale, if c.reapStale then Most(c.reapMinIdle, 1) else c.reapMinIdle)
  }

  function Normalized(p: Policy): Policy {
    Policy(NormalCadence(p.cadence), NormalDisk(p.disk), NormalProcess(p.process), NormalMemory(p.memory),
           NormalGrowth(p.growth), NormalLogging(p.logging), NormalCleanup(p.cleanup))
  }

  // ---------------------------------------------------------------- the knobs a pass names

  function When(moved: bool, knob: Knob): seq<Knob> { if moved then [knob] else [] }

  function CadenceReport(c: Cadence): seq<Knob> {
    When(c.interval < 5, Interval) + When(c.autoCleanupInterval < 60, AutoCleanupInterval)
    + When(c.reportRepeat < 60, ReportRepeat) + When(c.proactiveCycles < 1, ProactiveCycles)
  }

  /** The levels pushed up into order, before the caps at 100. */
  function Raised(d: Disk): Disk {
    var warn := Clamp(d.warn, 1, 100);
    var action := Most(d.action, warn);
    d.(warn := warn, early := Least(Clamp(d.early, 1, 100), warn), action := action, critical := Most(d.critical, action))
  }

  function RaiseReport(d: Disk): seq<Knob> {
    When(d.warn != Raised(d).warn, DiskWarn)
    + When(d.early != Clamp(d.early, 1, 100), DiskEarlyWarn)
    + When(Clamp(d.early, 1, 100) > Raised(d).warn, DiskEarlyWarn)
    + When(d.action < Raised(d).warn, DiskAction)
    + When(d.critical < Raised(d).action, DiskCritical)
  }

  function LevelReport(d: Disk): seq<Knob> {
    RaiseReport(d) + When(Raised(d).action > 100, DiskAction) + When(Raised(d).critical > 100, DiskCritical)
  }

  function DiskReport(d: Disk): seq<Knob> {
    var n := NormalDisk(d);
    LevelReport(d)
    + When(d.proactive >= n.action, ProactiveCleanup)
    + When(d.unfreeze != Clamp(d.unfreeze, 1, 100), UnfreezeBelow)
    + When(Clamp(d.unfreeze, 1, 100) >= n.action, UnfreezeBelow)
    + When(d.inodeWarn != n.inodeWarn, InodeWarn)
    + When(d.memAvailableWarn != n.memAvailableWarn, MemAvailableWarn)
    + When(d.swapUsedWarn != n.swapUsedWarn, SwapUsedWarn)
  }

  function ProcessReport(p: Process): seq<Knob> {
    When(!Within(p.cpu, 1.0, 100000.0), ProcessCpu)
    + When(p.rss < 64, ProcessRss)
    + When(p.sustain < 5, ProcessSustain)
    + When(p.stuck < Most(p.sustain, 5), ProcessStuck)
    + When(p.renice != Clamp(p.renice, 0, 19), Renice)
    + When(p.releaseAfter < 5, ReleaseAfter)
    + When(p.notifyCooldown < 5, NotifyCooldown)
    + When(Most(p.notifyCooldown, 5) > 86400, NotifyCooldown)
  }

  function MemoryReport(m: Memory): seq<Knob> {
    When(!Within(m.psi, 0.0, 100.0), MemPsi)
    + When(m.swapin < 1, MemSwapin)
    + When(m.sustain < 30, MemSustain)
    + When(m.saveAge != Clamp(m.saveAge, 60, 86400), TmuxSaveAge)
    + When(!LegalList(m.sockets, MAX_SERVERS), TmuxSockets)
  }

  function GrowthReport(g: Growth): seq<Knob> {
    When(g.window < 60, GrowthWindow)
    + When(Most(g.window, 60) > 86400, GrowthWindow)
    + When(g.minMb < 1, GrowthMin)
    + When(Most(g.minMb, 1) > GROWTH_MAX_MB, GrowthMin)
    + When(!LegalList(g.targets, MAX_TARGETS), GrowthTargets)
    + When(g.capOffenders > 100, CapOffenders)
  }

  function LoggingReport(l: Logging): seq<Knob> {
    When(!Within(l.rapidFill, 0.5, 100000.0), RapidFill)
    + When(l.guardLogMax < 1, GuardLogMax)
    + When(l.maxTruncate < 1, LogMaxTruncate)
    + When(l.preserveHeader > 10000, LogPreserveHeader)
  }

  function CleanupReport(c: Cleanup): seq<Knob> {
    When(c.minSize < 1, CleanupMinSize)
    + When(c.rustMaxAge < 1, RustMaxAge)
    + When(c.relocateMinSize < 1, RelocateMinSize)
    + When(c.relocateMaxMoves < 1, RelocateMaxMoves)
    + When(c.reapStale && c.reapMinIdle < 1, ReapMinIdle)
  }

  function Report(p: Policy): seq<Knob> {
    CadenceReport(p.cadence) + DiskReport(p.disk) + ProcessReport(p.process) + MemoryReport(p.memory)
    + GrowthReport(p.growth) + LoggingReport(p.logging) + CleanupReport(p.cleanup)
  }

  // ---------------------------------------------------------------- the code

  /** `floor!`, `ceil!`, `band!` and `fband!`: the value brought into range, and the knob if it moved. */
  method Floor(knob: Knob, value: int, min: int) returns (after: int, moved: seq<Knob>)
    ensures after == Most(value, min)
    ensures moved == When(value < min, knob)
  {
    if value < min { return min, [knob]; }
    return value, [];
  }

  method Ceil(knob: Knob, value: int, max: int) returns (after: int, moved: seq<Knob>)
    ensures after == Least(value, max)
    ensures moved == When(value > max, knob)
  {
    if value > max { return max, [knob]; }
    return value, [];
  }

  method Band(knob: Knob, value: int, min: int, max: int) returns (after: int, moved: seq<Knob>)
    requires min <= max
    ensures after == Clamp(value, min, max)
    ensures moved == When(value != Clamp(value, min, max), knob)
  {
    if value < min || value > max { return Least(Most(value, min), max), [knob]; }
    return value, [];
  }

  method FloatBand(knob: Knob, before: Float, min: real, max: real) returns (after: Float, moved: seq<Knob>)
    requires min <= max
    ensures after == ClampFloat(before, min, max)
    ensures moved == When(!Within(before, min, max), knob)
  {
    after := Min(Max(before, Finite(min)), Finite(max));
    if !Same(after, before) { return after, [knob]; }
    return before, [];
  }

  method ListBound(knob: Knob, list: seq<string>, max: nat) returns (after: seq<string>, moved: seq<Knob>)
    ensures after == Shortlist(list, max)
    ensures moved == When(!LegalList(list, max), knob)
  {
    SortSorts(list);
    DedupDropsOnlyRepeats(Sort(list));
    assert |Sort(list)| == |list| by { assert |multiset(Sort(list))| == |Sort(list)|; }
    after := Dedup(Sort(list));
    if |after| > max { after := after[..max]; }
    moved := if |list| != |after| then [knob] else [];
  }

  class Guard {
    var cadence: Cadence
    var disk: Disk
    var process: Process
    var memory: Memory
    var growth: Growth
    var logging: Logging
    var cleanup: Cleanup

    ghost function View(): Policy
      reads this
    {
      Policy(cadence, disk, process, memory, growth, logging, cleanup)
    }

    method BoundCadence() returns (adjusted: seq<Knob>)
      modifies this`cadence
      ensures cadence == NormalCadence(old(cadence))
      ensures adjusted == CadenceReport(old(cadence))
    {
      var v, moved;
      v, moved := Floor(Interval, cadence.interval, 5);
      cadence, adjusted := cadence.(interval := v), moved;
      v, moved := Floor(AutoCleanupInterval, cadence.autoCleanupInterval, 60);
      cadence, adjusted := cadence.(autoCleanupInterval := v), adjusted + moved;
      v, moved := Floor(ReportRepeat, cadence.reportRepeat, 60);
      cadence, adjusted := cadence.(reportRepeat := v), adjusted + moved;
      v, moved := Floor(ProactiveCycles, cadence.proactiveCycles, 1);
      cadence, adjusted := cadence.(proactiveCycles := v), adjusted + moved;
    }

    method RaiseLevels() returns (adjusted: seq<Knob>)
      modifies this`disk
      ensures disk == Raised(old(disk))
      ensures adjusted == RaiseReport(old(disk))
    {
      var v, moved;
      v, moved := Band(DiskWarn, disk.warn, 1, 100);
      disk, adjusted := disk.(warn := v), moved;
      v, moved := Band(DiskEarlyWarn, disk.early, 1, 100);
      disk, adjusted := disk.(early := v), adjusted + moved;
      v, moved := Ceil(DiskEarlyWarn, disk.early, disk.warn);
      disk, adjusted := disk.(early := v), adjusted + moved;
      v, moved := Floor(DiskAction, disk.action, disk.warn);
      disk, adjusted := disk.(action := v), adjusted + moved;
      v, moved := Floor(DiskCritical, disk.critical, disk.action);
      disk, adjusted := disk.(critical := v), adjusted + moved;
    }

    method BoundLevels() returns (adjusted: seq<Knob>)
      modifies this`disk
      ensures var n := NormalDisk(old(disk));
        disk == old(disk).(warn := n.warn, early := n.early, action := n.action, critical := n.critical)
      ensures adjusted == LevelReport(old(disk))
    {
      var v, moved;
      adjusted := RaiseLevels();
      v, moved := Ceil(DiskAction, disk.action, 100);
      disk, adjusted := disk.(action := v), adjusted + moved;
      v, moved := Ceil(DiskCritical, disk.critical, 100);
      disk, adjusted := disk.(critical := v), adjusted + moved;
    }

    method BoundDisk() returns (adjusted: seq<Knob>)
      modifies this`disk
      ensures disk == NormalDisk(old(disk))
      ensures adjusted == DiskReport(old(disk))
    {
      var v, moved;
      adjusted := BoundLevels();
      assert adjusted + [] == adjusted;
      if disk.proactive >= disk.action {
        disk, adjusted := disk.(proactive := Most(Most(disk.action - 1, 0), 1)), adjusted + [ProactiveCleanup];
      }
      v, moved := Band(UnfreezeBelow, disk.unfreeze, 1, 100);
      disk, adjusted := disk.(unfreeze := v), adjusted + moved;
      assert adjusted + [] == adjusted;
      if disk.unfreeze >= disk.action {
        disk, adjusted := disk.(unfreeze := Most(Most(disk.action - 1, 0), 1)), adjusted + [UnfreezeBelow];
      }
      v, moved := Band(InodeWarn, disk.inodeWarn, 1, 100);
      disk, adjusted := disk.(inodeWarn := v), adjusted + moved;
      v, moved := Band(MemAvailableWarn, disk.memAvailableWarn, 1, 100);
      disk, adjusted := disk.(memAvailableWarn := v), adjusted + moved;
      v, moved := Band(SwapUsedWarn, disk.swapUsedWarn, 1, 100);
      disk, adjusted := disk.(swapUsedWarn := v), adjusted + moved;
    }

    method BoundProcess() returns (adjusted: seq<Knob>)
      modifies this`process
      ensures process == NormalProcess(old(process))
      ensures adjusted == ProcessReport(old(process))
    {
      var v, f, moved;
      f, moved := FloatBand(ProcessCpu, process.cpu, 1.0, 100000.0);
      process, adjusted := process.(cpu := f), moved;
      v, moved := Floor(ProcessRss, process.rss, 64);
      process, adjusted := process.(rss := v), adjusted + moved;
      v, moved := Floor(ProcessSustain, process.sustain, 5);
      process, adjusted := process.(sustain := v), adjusted + moved;
      v, moved := Floor(ProcessStuck, process.stuck, process.sustain);
      process, adjusted := process.(stuck := v), adjusted + moved;
      v, moved := Band(Renice, process.renice, 0, 19);
      process, adjusted := process.(renice := v), adjusted + moved;
      v, moved := Floor(ReleaseAfter, process.releaseAfter, 5);
      process, adjusted := process.(releaseAfter := v), adjusted + moved;
      v, moved := Floor(NotifyCooldown, process.notifyCooldown, 5);
      process, adjusted := process.(notifyCooldown := v), adjusted + moved;
      v, moved := Ceil(NotifyCooldown, process.notifyCooldown, 86400);
      process, adjusted := process.(notifyCooldown := v), adjusted + moved;
    }

    method BoundMemory() returns (adjusted: seq<Knob>)
      modifies this`memory
      ensures memory == NormalMemory(old(memory))
      ensures adjusted == MemoryReport(old(memory))
    {
      var v, f, list, moved;
      f, moved := FloatBand(MemPsi, memory.psi, 0.0, 100.0);
      memory, adjusted := memory.(psi := f), moved;
      v, moved := Floor(MemSwapin, memory.swapin, 1);
      memory, adjusted := memory.(swapin := v), adjusted + moved;
      v, moved := Floor(MemSustain, memory.sustain, 30);
      memory, adjusted := memory.(sustain := v), adjusted + moved;
      v, moved := Band(TmuxSaveAge, memory.saveAge, 60, 86400);
      memory, adjusted := memory.(saveAge := v), adjusted + moved;
      list, moved := ListBound(TmuxSockets, memory.sockets, MAX_SERVERS);
      memory, adjusted := memory.(sockets := list), adjusted + moved;
    }

    method BoundGrowth() returns (adjusted: seq<Knob>)
      modifies this`growth
      ensures growth == NormalGrowth(old(growth))
      ensures adjusted == GrowthReport(old(growth))
    {
      var v, list, moved;
      v, moved := Floor(GrowthWindow, growth.window, 60);
      growth, adjusted := growth.(window := v), moved;
      v, moved := Ceil(GrowthWindow, growth.window, 86400);
      growth, adjusted := growth.(window := v), adjusted + moved;
      v, moved := Floor(GrowthMin, growth.minMb, 1);
      growth, adjusted := growth.(minMb := v), adjusted + moved;
      v, moved := Ceil(GrowthMin, growth.minMb, GROWTH_MAX_MB);
      growth, adjusted := growth.(minMb := v), adjusted + moved;
      list, moved := ListBound(GrowthTargets, growth.targets, MAX_TARGETS);
      growth, adjusted := growth.(targets := list), adjusted + moved;
      v, moved := Ceil(CapOffenders, growth.capOffenders, 100);
      growth, adjusted := growth.(capOffenders := v), adjusted + moved;
    }

    method BoundLogging() returns (adjusted: seq<Knob>)
      modifies this`logging
      ensures logging == NormalLogging(old(logging))
      ensures adjusted == LoggingReport(old(logging))
    {
      var v, f, moved;
      f, moved := FloatBand(RapidFill, logging.rapidFill, 0.5, 100000.0);
      logging, adjusted := logging.(rapidFill := f), moved;
      v, moved := Floor(GuardLogMax, logging.guardLogMax, 1);
      logging, adjusted := logging.(guardLogMax := v), adjusted + moved;
      v, moved := Floor(LogMaxTruncate, logging.maxTruncate, 1);
      logging, adjusted := logging.(maxTruncate := v), adjusted + moved;
      v, moved := Ceil(LogPreserveHeader, logging.preserveHeader, 10000);
      logging, adjusted := logging.(preserveHeader := v), adjusted + moved;
    }

    method BoundCleanup() returns (adjusted: seq<Knob>)
      modifies this`cleanup
      ensures cleanup == NormalCleanup(old(cleanup))
      ensures adjusted == CleanupReport(old(cleanup))
    {
      var v, moved;
      v, moved := Floor(CleanupMinSize, cleanup.minSize, 1);
      cleanup, adjusted := cleanup.(minSize := v), moved;
      v, moved := Floor(RustMaxAge, cleanup.rustMaxAge, 1);
      cleanup, adjusted := cleanup.(rustMaxAge := v), adjusted + moved;
      v, moved := Floor(RelocateMinSize, cleanup.relocateMinSize, 1);
      cleanup, adjusted := cleanup.(relocateMinSize := v), adjusted + moved;
      v, moved := Floor(RelocateMaxMoves, cleanup.relocateMaxMoves, 1);
      cleanup, adjusted := cleanup.(relocateMaxMoves := v), adjusted + moved;
      assert adjusted + [] == adjusted;
      if cleanup.reapStale {
        v, moved := Floor(ReapMinIdle, cleanup.reapMinIdle, 1);
        cleanup, adjusted := cleanup.(reapMinIdle := v), adjusted + moved;
      }
    }

    /** The whole pass: the policy becomes its normal form, and the report names what moved. */
    method Normalize() returns (adjusted: seq<Knob>)
      modifies this
      ensures View() == Normalized(old(View()))
      ensures adjusted == Report(old(View()))
    {
      adjusted := BoundCadence();
      var more;
      more := BoundDisk();
      adjusted := adjusted + more;
      more := BoundProcess();
      adjusted := adjusted + more;
      more := BoundMemory();
      adjusted := adjusted + more;
      more := BoundGrowth();
      adjusted := adjusted + more;
      more := BoundLogging();
      adjusted := adjusted + more;
      more := BoundCleanup();
      adjusted := adjusted + more;
    }

    /** Normalizing twice changes nothing more, and the second pass is silent exactly when the action level
        came out above 1: the unfreeze gate cannot lie below 1. */
    method NormalizeTwice() returns (first: seq<Knob>, again: seq<Knob>)
      modifies this
      ensures View() == Normalized(old(View()))
      ensures again == [] <==> View().disk.action > 1
    {
      ghost var was := View();
      first := Normalize();
      again := Normalize();
      NormalizationIsAFixpoint(was);
      NormalizedIsLegalIff(was);
      SilentIffLegal(Normalized(was));
    }
  }

  // ---------------------------------------------------------------- what normalization achieves

  lemma {:induction false} ShortlistIsFixed(s: seq<string>, n: nat)
    ensures Shortlist(Shortlist(s, n), n) == Shortlist(s, n)
    ensures LegalList(Shortlist(s, n), n)
  {
    SortSorts(s);
    DedupAscends(Sort(s));
    AscendingIsFixed(Shortlist(s, n));
  }

  /** The shortlist is the smallest distinct entries: nothing is dropped while there is room, and a kept
      entry is smaller than every dropped one. */
  lemma {:induction false} ShortlistKeepsTheSmallest(s: seq<string>, n: nat)
    ensures Ascending(Shortlist(s, n)) && |Shortlist(s, n)| <= n
    ensures forall x :: x in Shortlist(s, n) ==> x in s
    ensures forall x :: x in s && x !in Shortlist(s, n) ==> |Shortlist(s, n)| == n
    ensures forall x, y :: x in Shortlist(s, n) && y in s && y !in Shortlist(s, n) ==> StringLess(x, y)
  {
    var d := Dedup(Sort(s));
    SortSorts(s);
    DedupAscends(Sort(s));
    assert forall x :: x in s <==> x in multiset(Sort(s));
    assert forall x :: x in s <==> x in d;
  }

  lemma NormalizationIsAFixpoint(p: Policy)
    ensures Normalized(Normalized(p)) == Normalized(p)
  {
    ShortlistIsFixed(p.memory.sockets, MAX_SERVERS);
    ShortlistIsFixed(p.growth.targets, MAX_TARGETS);
    LevelsAreFixed(p.disk);
    ProcessIsFixed(p.process);
  }

  lemma LevelsAreFixed(d: Disk)
    ensures NormalDisk(NormalDisk(d)) == NormalDisk(d)
  {
  }

  lemma ProcessIsFixed(p: Process)
    ensures NormalProcess(NormalProcess(p)) == NormalProcess(p)
  {
  }

  /** Every normal form has its levels in order and its numbers in range, NaN and infinities included. */
  lemma NormalizedIsInRange(p: Policy)
    ensures var d := Normalized(p).disk; 1 <= d.early <= d.warn <= d.action <= d.critical <= 100
    ensures Normalized(p).process.stuck >= Normalized(p).process.sustain >= 5
    ensures Legal(Normalized(p).(disk := p.disk)) <==> LegalDisk(p.disk)
  {
    ShortlistIsFixed(p.memory.sockets, MAX_SERVERS);
    ShortlistIsFixed(p.growth.targets, MAX_TARGETS);
  }

  /** The normal form is legal except when the action level is 1, where no gate fits below it; and that
      happens exactly when the file's warning and action levels are both at most 1. */
  lemma NormalizedIsLegalIff(p: Policy)
    ensures Legal(Normalized(p)) <==> Normalized(p).disk.action > 1
    ensures Normalized(p).disk.action > 1 <==> p.disk.warn > 1 || p.disk.action > 1
  {
    NormalizedIsInRange(p);
    assert LegalDisk(NormalDisk(p.disk)) <==> NormalDisk(p.disk).action > 1;
    assert Normalized(p) == Normalized(p).(disk := NormalDisk(p.disk));
    assert Legal(Normalized(p)) <==> LegalDisk(NormalDisk(p.disk)) by {
      NormalizedIsInRange(p.(disk := NormalDisk(p.disk)));
    }
  }

  /** A pass is silent exactly on the legal policies. */
  lemma SilentIffLegal(p: Policy)
    ensures Report(p) == [] <==> Legal(p)
  {
    LevelsSilentIffOrdered(p.disk);
    assert CadenceReport(p.cadence) == [] <==> LegalCadence(p.cadence);
    assert DiskReport(p.disk) == [] <==> LegalDisk(p.disk);
    assert ProcessReport(p.process) == [] <==> LegalProcess(p.process);
    assert MemoryReport(p.memory) == [] <==> LegalMemory(p.memory);
    assert GrowthReport(p.growth) == [] <==> LegalGrowth(p.growth);
    assert LoggingReport(p.logging) == [] <==> LegalLogging(p.logging);
    assert CleanupReport(p.cleanup) == [] <==> LegalCleanup(p.cleanup);
  }

  lemma LevelsSilentIffOrdered(d: Disk)
    ensures LevelReport(d) == [] <==> 1 <= d.early <= d.warn <= d.action <= d.critical <= 100
  {
  }

  /** A legal policy keeps every value; only the order of its lists may change. */
  lemma {:induction false} LegalPoliciesAreKept(p: Policy)
    requires Legal(p)
    ensures Normalized(p) == p.(memory := p.memory.(sockets := Sort(p.memory.sockets)),
                                growth := p.growth.(targets := Sort(p.growth.targets)))
  {
    LegalListIsSorted(p.memory.sockets, MAX_SERVERS);
    LegalListIsSorted(p.growth.targets, MAX_TARGETS);
  }

  lemma {:induction false} LegalListIsSorted(s: seq<string>, n: nat)
    requires LegalList(s, n)
    ensures Shortlist(s, n) == Sort(s)
  {
    SortSorts(s);
    assert |multiset(Sort(s))| == |multiset(s)|;
    DedupDropsOnlyRepeats(Sort(s));
    AscendingIsFixed(Sort(s));
  }

  // ---------------------------------------------------------------- how far a knob moves

  function Distance(a: int, b: int): nat { if a <= b then b - a else a - b }

  /** The number of the range that lies nearest. */
  ghost predicate Nearest(after: int, before: int, lo: int, hi: int) {
    lo <= after <= hi && forall y :: lo <= y <= hi ==> Distance(after, before) <= Distance(y, before)
  }

  /** Of a range without an upper end. */
  ghost predicate NearestFrom(after: int, before: int, lo: int) {
    lo <= after && forall y :: lo <= y ==> Distance(after, before) <= Distance(y, before)
  }

  /** A finite number goes to the nearest of the range, an infinite one to its end, and a NaN to the lower end. */
  ghost predicate NearestFloat(after: Float, before: Float, lo: real, hi: real) {
    && Within(after, lo, hi)
    && match before
       case NaN => after.value == lo
       case NegInf => after.value == lo
       case PosInf => after.value == hi
       case Finite(v) => (lo <= v <= hi ==> after.value == v) && (v < lo ==> after.value == lo) && (v > hi ==> after.value == hi)
  }

  lemma ClampIsNearest(v: int, lo: int, hi: int)
    requires lo <= hi
    ensures Nearest(Clamp(v, lo, hi), v, lo, hi)
    ensures NearestFrom(Most(v, lo), v, lo)
  {
  }

  lemma LeastIsNearest(v: nat, hi: nat)
    ensures Nearest(Least(v, hi), v, 0, hi)
  {
  }

  /** The disk levels: each is the nearest to its own value that the levels settled before it allow. The two gates
      keep one below the action level, which is no room for them when that level is 1. */
  lemma DiskMovesLeast(d: Disk)
    ensures var n := NormalDisk(d);
      && Nearest(n.warn, d.warn, 1, 100)
      && Nearest(n.early, d.early, 1, n.warn)
      && Nearest(n.action, d.action, n.warn, 100)
      && Nearest(n.critical, d.critical, n.action, 100)
      && (n.action > 1 ==> Nearest(n.proactive, d.proactive, 0, n.action - 1))
      && (n.action > 1 ==> Nearest(n.unfreeze, d.unfreeze, 1, n.action - 1))
      && (n.action == 1 ==> n.proactive == (if d.proactive == 0 then 0 else 1) && n.unfreeze == 1)
      && Nearest(n.inodeWarn, d.inodeWarn, 1, 100)
      && Nearest(n.memAvailableWarn, d.memAvailableWarn, 1, 100)
      && Nearest(n.swapUsedWarn, d.swapUsedWarn, 1, 100)
  {
  }

  lemma ProcessMovesLeast(p: Process)
    ensures var n := NormalProcess(p);
      && NearestFloat(n.cpu, p.cpu, 1.0, 100000.0)
      && NearestFrom(n.rss, p.rss, 64)
      && NearestFrom(n.sustain, p.sustain, 5)
      && NearestFrom(n.stuck, p.stuck, n.sustain)
      && Nearest(n.renice, p.renice, 0, 19)
      && NearestFrom(n.releaseAfter, p.releaseAfter, 5)
      && Nearest(n.notifyCooldown, p.notifyCooldown, 5, 86400)
  {
  }

  lemma MemoryAndGrowthMoveLeast(m: Memory, g: Growth)
    ensures var n := NormalMemory(m);
      && NearestFloat(n.psi, m.psi, 0.0, 100.0)
      && NearestFrom(n.swapin, m.swapin, 1)
      && NearestFrom(n.sustain, m.sustain, 30)
      && Nearest(n.saveAge, m.saveAge, 60, 86400)
    ensures var n := NormalGrowth(g);
      && Nearest(n.window, g.window, 60, 86400)
      && Nearest(n.minMb, g.minMb, 1, 0xFFF_FFFF_FFFF)
      && Nearest(n.capOffenders, g.capOffenders, 0, 100)
  {
  }

  lemma OthersMoveLeast(c: Cadence, l: Logging, k: Cleanup)
    ensures var n := NormalCadence(c);
      && NearestFrom(n.interval, c.interval, 5)
      && NearestFrom(n.autoCleanupInterval, c.autoCleanupInterval, 60)
      && NearestFrom(n.reportRepeat, c.reportRepeat, 60)
      && NearestFrom(n.proactiveCycles, c.proactiveCycles, 1)
    ensures var n := NormalLogging(l);
      && NearestFloat(n.rapidFill, l.rapidFill, 0.5, 100000.0)
      && NearestFrom(n.guardLogMax, l.guardLogMax, 1)
      && NearestFrom(n.maxTruncate, l.maxTruncate, 1)
      && Nearest(n.preserveHeader, l.preserveHeader, 0, 10000)
    ensures var n := NormalCleanup(k);
      && NearestFrom(n.minSize, k.minSize, 1)
      && NearestFrom(n.rustMaxAge, k.rustMaxAge, 1)
      && NearestFrom(n.relocateMinSize, k.relocateMinSize, 1)
      && NearestFrom(n.relocateMaxMoves, k.relocateMaxMoves, 1)
      && n.reapStale == k.reapStale
      && (k.reapStale ==> NearestFrom(n.reapMinIdle, k.reapMinIdle, 1))
      && (!k.reapStale ==> n.reapMinIdle == k.reapMinIdle)
  {
  }

  // ---------------------------------------------------------------- which knobs are named

  // The value of the knob differs between two policies; of a list, how many entries it has.

  predicate CadenceMoved(a: Cadence, b: Cadence, k: Knob) {
    match k
    case Interval => a.interval != b.interval
    case AutoCleanupInterval => a.autoCleanupInterval != b.autoCleanupInterval
    case ReportRepeat => a.reportRepeat != b.reportRepeat
    case ProactiveCycles => a.proactiveCycles != b.proactiveCycles
    case _ => false
  }

  predicate DiskMoved(a: Disk, b: Disk, k: Knob) {
    match k
    case DiskWarn => a.warn != b.warn
    case DiskEarlyWarn => a.early != b.early
    case DiskAction => a.action != b.action
    case DiskCritical => a.critical != b.critical
    case ProactiveCleanup => a.proactive != b.proactive
    case UnfreezeBelow => a.unfreeze != b.unfreeze
    case InodeWarn => a.inodeWarn != b.inodeWarn
    case MemAvailableWarn => a.memAvailableWarn != b.memAvailableWarn
    case SwapUsedWarn => a.swapUsedWarn != b.swapUsedWarn
    case _ => false
  }

  predicate ProcessMoved(a: Process, b: Process, k: Knob) {
    match k
    case ProcessCpu => a.cpu != b.cpu
    case ProcessRss => a.rss != b.rss
    case ProcessSustain => a.sustain != b.sustain
    case ProcessStuck => a.stuck != b.stuck
    case Renice => a.renice != b.renice
    case ReleaseAfter => a.releaseAfter != b.releaseAfter
    case NotifyCooldown => a.notifyCooldown != b.notifyCooldown
    case _ => false
  }

  predicate MemoryMoved(a: Memory, b: Memory, k: Knob) {
    match k
    case MemPsi => a.psi != b.psi
    case MemSwapin => a.swapin != b.swapin
    case MemSustain => a.sustain != b.sustain
    case TmuxSaveAge => a.saveAge != b.saveAge
    case TmuxSockets => |a.sockets| != |b.sockets|
    case _ => false
  }

  predicate GrowthMoved(a: Growth, b: Growth, k: Knob) {
    match k
    case GrowthWindow => a.window != b.window
    case GrowthMin => a.minMb != b.minMb
    case GrowthTargets => |a.targets| != |b.targets|
    case CapOffenders => a.capOffenders != b.capOffenders
    case _ => false
  }

  predicate LoggingMoved(a: Logging, b: Logging, k: Knob) {
    match k
    case RapidFill => a.rapidFill != b.rapidFill
    case GuardLogMax => a.guardLogMax != b.guardLogMax
    case LogMaxTruncate => a.maxTruncate != b.maxTruncate
    case LogPreserveHeader => a.preserveHeader != b.preserveHeader
    case _ => false
  }

  predicate CleanupMoved(a: Cleanup, b: Cleanup, k: Knob) {
    match k
    case CleanupMinSize => a.minSize != b.minSize
    case RustMaxAge => a.rustMaxAge != b.rustMaxAge
    case RelocateMinSize => a.relocateMinSize != b.relocateMinSize
    case RelocateMaxMoves => a.relocateMaxMoves != b.relocateMaxMoves
    case ReapMinIdle => a.reapMinIdle != b.reapMinIdle
    case _ => false
  }

  predicate Moved(a: Policy, b: Policy, k: Knob) {
    || CadenceMoved(a.cadence, b.cadence, k)
    || DiskMoved(a.disk, b.disk, k)
    || ProcessMoved(a.process, b.process, k)
    || MemoryMoved(a.memory, b.memory, k)
    || GrowthMoved(a.growth, b.growth, k)
    || LoggingMoved(a.logging, b.logging, k)
    || CleanupMoved(a.cleanup, b.cleanup, k)
  }

  /** Named although its value did not change: the critical level that an oversized action level first pushed up, and
      the two gates when the action level of 1 leaves no room below it. */
  predicate NamedInVain(d: Disk, k: Knob) {
    match k
    case DiskCritical => d.critical == 100 && d.action > 100
    case ProactiveCleanup => NormalDisk(d).action == 1 && d.proactive == 1
    case UnfreezeBelow => NormalDisk(d).action == 1 && d.unfreeze == 1
    case _ => false
  }

  lemma ListNamedIff(s: seq<string>, n: nat)
    ensures !LegalList(s, n) <==> |Shortlist(s, n)| != |s|
  {
    SortSorts(s);
    DedupDropsOnlyRepeats(Sort(s));
    assert |Sort(s)| == |s| by { assert |multiset(Sort(s))| == |Sort(s)|; }
  }

  lemma InConcat(a: seq<Knob>, b: seq<Knob>, c: seq<Knob>, d: seq<Knob>, e: seq<Knob>, f: seq<Knob>, g: seq<Knob>, k: Knob)
    ensures k in a + b + c + d + e + f + g <==> k in a || k in b || k in c || k in d || k in e || k in f || k in g
  {
  }

  lemma CadenceNamed(c: Cadence, k: Knob)
    ensures k in CadenceReport(c) <==> CadenceMoved(c, NormalCadence(c), k)
  {
  }

  lemma LevelsNamed(d: Disk, k: Knob)
    ensures k in LevelReport(d) <==>
            || (k.DiskWarn? && d.warn != NormalDisk(d).warn)
            || (k.DiskEarlyWarn? && d.early != NormalDisk(d).early)
            || (k.DiskAction? && d.action != NormalDisk(d).action)
            || (k.DiskCritical? && (d.critical != NormalDisk(d).critical || (d.critical == 100 && d.action > 100)))
  {
  }

  lemma DiskNamed(d: Disk, k: Knob)
    ensures k in DiskReport(d) <==> DiskMoved(d, NormalDisk(d), k) || NamedInVain(d, k)
  {
    LevelsNamed(d, k);
  }

  lemma FloatMovesIff(x: Float, lo: real, hi: real)
    requires lo <= hi
    ensures ClampFloat(x, lo, hi) != x <==> !Within(x, lo, hi)
  {
  }

  function ProcessHead(p: Process): seq<Knob> {
    When(!Within(p.cpu, 1.0, 100000.0), ProcessCpu) + When(p.rss < 64, ProcessRss) + When(p.sustain < 5, ProcessSustain)
    + When(p.stuck < Most(p.sustain, 5), ProcessStuck)
  }

  function ProcessTail(p: Process): seq<Knob> {
    When(p.renice != Clamp(p.renice, 0, 19), Renice) + When(p.releaseAfter < 5, ReleaseAfter)
    + When(p.notifyCooldown < 5, NotifyCooldown) + When(Most(p.notifyCooldown, 5) > 86400, NotifyCooldown)
  }

  lemma Halves(a: seq<Knob>, b: seq<Knob>, c: seq<Knob>, d: seq<Knob>, e: seq<Knob>, f: seq<Knob>, g: seq<Knob>, h: seq<Knob>)
    ensures a + b + c + d + e + f + g + h == (a + b + c + d) + (e + f + g + h)
  {
  }

  lemma ProcessHalves(p: Process)
    ensures ProcessReport(p) == ProcessHead(p) + ProcessTail(p)
  {
    Halves(When(!Within(p.cpu, 1.0, 100000.0), ProcessCpu), When(p.rss < 64, ProcessRss), When(p.sustain < 5, ProcessSustain),
           When(p.stuck < Most(p.sustain, 5), ProcessStuck), When(p.renice != Clamp(p.renice, 0, 19), Renice),
           When(p.releaseAfter < 5, ReleaseAfter), When(p.notifyCooldown < 5, NotifyCooldown),
           When(Most(p.notifyCooldown, 5) > 86400, NotifyCooldown));
  }

  lemma ProcessHeadNamed(p: Process, k: Knob)
    ensures k in ProcessHead(p) <==>
            (k.ProcessCpu? || k.ProcessRss? || k.ProcessSustain? || k.ProcessStuck?) && ProcessMoved(p, NormalProcess(p), k)
  {
    FloatMovesIff(p.cpu, 1.0, 100000.0);
  }

  lemma ProcessTailNamed(p: Process, k: Knob)
    ensures k in ProcessTail(p) <==>
            (k.Renice? || k.ReleaseAfter? || k.NotifyCooldown?) && ProcessMoved(p, NormalProcess(p), k)
  {
  }

  lemma ProcessNamed(p: Process, k: Knob)
    ensures k in ProcessReport(p) <==> ProcessMoved(p, NormalProcess(p), k)
  {
    ProcessHalves(p);
    ProcessHeadNamed(p, k);
    ProcessTailNamed(p, k);
    assert k in ProcessHead(p) + ProcessTail(p) <==> k in ProcessHead(p) || k in ProcessTail(p);
  }

  lemma MemoryNamed(m: Memory, k: Knob)
    ensures k in MemoryReport(m) <==> MemoryMoved(m, NormalMemory(m), k)
  {
    ListNamedIff(m.sockets, MAX_SERVERS);
    FloatMovesIff(m.psi, 0.0, 100.0);
  }

  lemma GrowthNamed(g: Growth, k: Knob)
    ensures k in GrowthReport(g) <==> GrowthMoved(g, NormalGrowth(g), k)
  {
    ListNamedIff(g.targets, MAX_TARGETS);
  }

  lemma LoggingNamed(l: Logging, k: Knob)
    ensures k in LoggingReport(l) <==> LoggingMoved(l, NormalLogging(l), k)
  {
    FloatMovesIff(l.rapidFill, 0.5, 100000.0);
  }

  function CleanupHead(c: Cleanup): seq<Knob> {
    When(c.minSize < 1, CleanupMinSize) + When(c.rustMaxAge < 1, RustMaxAge)
    + When(c.relocateMinSize < 1, RelocateMinSize) + When(c.relocateMaxMoves < 1, RelocateMaxMoves)
  }

  lemma CleanupHeadNamed(c: Cleanup, k: Knob)
    ensures k in CleanupHead(c) <==> !k.ReapMinIdle? && CleanupMoved(c, NormalCleanup(c), k)
  {
  }

  lemma CleanupNamed(c: Cleanup, k: Knob)
    ensures k in CleanupReport(c) <==> CleanupMoved(c, NormalCleanup(c), k)
  {
    CleanupHeadNamed(c, k);
    var last := When(c.reapStale && c.reapMinIdle < 1, ReapMinIdle);
    assert CleanupReport(c) == CleanupHead(c) + last;
    assert k in CleanupHead(c) + last <==> k in CleanupHead(c) || k in last;
  }

  lemma InReport(p: Policy, k: Knob)
    ensures k in Report(p) <==>
            || k in CadenceReport(p.cadence) || k in DiskReport(p.disk) || k in ProcessReport(p.process)
            || k in MemoryReport(p.memory) || k in GrowthReport(p.growth) || k in LoggingReport(p.logging)
            || k in CleanupReport(p.cleanup)
  {
    InConcat(CadenceReport(p.cadence), DiskReport(p.disk), ProcessReport(p.process), MemoryReport(p.memory),
             GrowthReport(p.growth), LoggingReport(p.logging), CleanupReport(p.cleanup), k);
  }

  /** A knob is named exactly when the pass changed its value (of a list, dropped an entry), or in vain. */
  lemma NamedIffMoved(p: Policy, k: Knob)
    ensures k in Report(p) <==> Moved(p, Normalized(p), k) || NamedInVain(p.disk, k)
  {
    InReport(p, k);
    CadenceNamed(p.cadence, k);
    DiskNamed(p.disk, k);
    ProcessNamed(p.process, k);
    MemoryNamed(p.memory, k);
    GrowthNamed(p.growth, k);
    LoggingNamed(p.logging, k);
    CleanupNamed(p.cleanup, k);
  }
}
