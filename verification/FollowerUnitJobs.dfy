/** FollowerUnitJobs.cpp: the row's one staged unit job and how it ends. */
module FollowerUnitJobs {
  import opened Wrappers

  datatype Kind = WriteOffset | Jog | Home | Identify | ResetOdometer | SelfTest | RebootToBootloader | SetGates
                | ReflashUnit | BootUpdate | BootInfo | BootDump | Probe | SetAddress | ClearAddress | HomeAll

  datatype Outcome = Pending | Ok | WireFail | ExecValidationFail | PostconditionFail

  datatype Result = Result(seqNo: nat, outcome: Outcome)

  datatype Staged = Yes(seqNo: nat) | Rescue | Busy | NoMemory

  datatype ResultState = StillPending | Found | Expired

  /** opResultQuery: the slot has not reached the job, holds it, or moved past it. */
  function Query(r: Result, seqNo: nat): ResultState {
    if r.seqNo < seqNo then StillPending
    else if r.seqNo == seqNo then (if r.outcome.Pending? then StillPending else Found)
    else Expired
  }

  /** The statics, and every result ever stamped. A seq of 0 stands for none. */
  datatype Jobs = Jobs(pending: bool, seqNo: nat, kind: Kind, counter: nat, result: Result,
                       selfTestPolling: bool, selfTestSeq: nat, homeSeq: nat, awaitSeq: nat, refreshPending: bool,
                       dumpHeld: bool, dumpSeq: nat, stamps: seq<Result>)

  /** After a start. */
  predicate NothingYet(j: Jobs) {
    && !j.pending && !j.selfTestPolling && j.homeSeq == 0 && j.awaitSeq == 0 && j.counter == 0
    && j.result == Result(0, Pending) && j.stamps == [] && !j.dumpHeld && j.dumpSeq == 0
  }

  /** What the bus and the clock bring to one pass of the loop. A job's own grade is
      never `Pending`; a poll's is until the unit has answered. */
  datatype Pass = Pass(started: bool, grade: Outcome, dumpStale: bool, selfTest: Outcome, home: Outcome,
                       inhibited: bool, scan: Outcome)

  predicate Possible(p: Pass) {
    !p.grade.Pending? && !p.scan.Pending?
  }

  predicate SlotBusy(j: Jobs, reflashing: bool) {
    j.pending || j.selfTestPolling || j.homeSeq != 0 || j.awaitSeq != 0 || reflashing
  }

  function StageOf(j: Jobs, kind: Kind, rescue: bool, reflashing: bool, memory: bool): (Jobs, Staged) {
    if rescue then (j, Rescue)
    else if SlotBusy(j, reflashing) then (j, Busy)
    else if kind.BootDump? && !j.dumpHeld && !memory then (j, NoMemory)
    else
      var seqNo := j.counter + 1;
      (j.(pending := true, seqNo := seqNo, kind := kind, counter := seqNo, dumpHeld := j.dumpHeld || kind.BootDump?),
       Yes(seqNo))
  }

  function Stamp(j: Jobs, seqNo: nat, outcome: Outcome): Jobs {
    j.(result := Result(seqNo, outcome), stamps := j.stamps + [Result(seqNo, outcome)])
  }

  /** A job after which the bus is scanned; an address refused before anything was
      sent is not one. */
  predicate AsksForScan(kind: Kind, p: Pass) {
    || kind.RebootToBootloader? || kind.BootUpdate? || kind.BootDump? || kind.Probe? || kind.ClearAddress?
    || (kind.SetAddress? && (p.started || !p.grade.ExecValidationFail?))
  }

  /** What ends a job: its own bus traffic, the unit's report, or the next scan. */
  datatype EndsWith = AtOnce | HomeReport | SelfTestReport | NextScan

  function EndOf(kind: Kind, started: bool): EndsWith {
    match kind
    case Home => if started then HomeReport else AtOnce
    case SelfTest => if started then SelfTestReport else AtOnce
    case Probe => NextScan
    case SetAddress => if started then NextScan else AtOnce
    case ClearAddress => if started then NextScan else AtOnce
    case _ => AtOnce
  }

  /** A unit update gives the dump buffer back; a dump fills it. */
  function DumpAfter(j: Jobs, grade: Outcome): Jobs {
    if j.kind.ReflashUnit? then j.(dumpHeld := false, dumpSeq := 0)
    else if j.kind.BootDump? then j.(dumpSeq := if grade.Ok? then j.seqNo else 0)
    else j
  }

  function Execute(j: Jobs, p: Pass): Jobs {
    var j1 := j.(pending := false, refreshPending := j.refreshPending || AsksForScan(j.kind, p));
    match EndOf(j.kind, p.started)
    case HomeReport => j1.(homeSeq := j.seqNo)
    case SelfTestReport => j1.(selfTestPolling := true, selfTestSeq := j.seqNo)
    case NextScan => j1.(awaitSeq := j.seqNo)
    case AtOnce => Stamp(DumpAfter(j1, p.grade), j.seqNo, p.grade)
  }

  function DumpExpired(j: Jobs, p: Pass): Jobs {
    if j.dumpHeld && !j.pending && p.dumpStale then j.(dumpHeld := false, dumpSeq := 0) else j
  }

  function SelfTestPolled(j: Jobs, p: Pass): Jobs {
    if !j.selfTestPolling || p.selfTest.Pending? then j
    else Stamp(j.(selfTestPolling := false), j.selfTestSeq, p.selfTest)
  }

  function HomePolled(j: Jobs, p: Pass): Jobs {
    if j.homeSeq == 0 || p.home.Pending? then j else Stamp(j.(homeSeq := 0), j.homeSeq, p.home)
  }

  function Scanned(j: Jobs, p: Pass): Jobs {
    if !j.refreshPending || p.inhibited then j
    else
      var j1 := j.(refreshPending := false, awaitSeq := 0);
      if j.awaitSeq == 0 then j1 else Stamp(j1, j.awaitSeq, p.scan)
  }

  function LoopTicked(j: Jobs, p: Pass): Jobs {
    var j1 := if j.pending then Execute(j, p) else j;
    Scanned(HomePolled(SelfTestPolled(DumpExpired(j1, p), p), p), p)
  }

  // ---- what every run keeps ------------------------------------------------------------

  function Count(b: bool): nat { if b then 1 else 0 }

  /** How many jobs are between staged and stamped. */
  function Running(j: Jobs): nat {
    Count(j.pending) + Count(j.selfTestPolling) + Count(j.homeSeq != 0) + Count(j.awaitSeq != 0)
  }

  predicate WaitsForScan(kind: Kind) {
    kind.Probe? || kind.SetAddress? || kind.ClearAddress?
  }

  /** At most one job runs, under the newest seq; every job before it was stamped
      once, in order, under its own; the slot holds the last stamp. */
  ghost predicate OneJob(j: Jobs) {
    && Running(j) <= 1
    && (Running(j) == 1 ==> j.counter > 0)
    && (j.pending ==> j.seqNo == j.counter)
    && (j.selfTestPolling ==> j.selfTestSeq == j.counter && j.kind.SelfTest?)
    && (j.homeSeq != 0 ==> j.homeSeq == j.counter && j.kind.Home?)
    && (j.awaitSeq != 0 ==> j.awaitSeq == j.counter && j.refreshPending && WaitsForScan(j.kind))
    && |j.stamps| + Running(j) == j.counter
    && (forall i :: 0 <= i < |j.stamps| ==> j.stamps[i].seqNo == i + 1 && !j.stamps[i].outcome.Pending?)
    && j.result == (if j.stamps == [] then Result(0, Pending) else j.stamps[|j.stamps| - 1])
    && (j.dumpSeq != 0 ==> j.dumpHeld && j.dumpSeq <= j.counter)
    && (j.pending && j.kind.BootDump? ==> j.dumpHeld)
  }

  lemma StageKeeps(j: Jobs, kind: Kind, rescue: bool, reflashing: bool, memory: bool)
    requires OneJob(j)
    ensures var (j', answer) := StageOf(j, kind, rescue, reflashing, memory);
      && OneJob(j')
      && (answer.Yes? ==> answer.seqNo == j'.counter == j.counter + 1 && Running(j) == 0 && Running(j') == 1
                          && j'.kind == kind && j'.stamps == j.stamps)
      && (!answer.Yes? ==> j' == j)
  {
  }

  /** A job is taken if and only if the row is not in rescue, no unit update and no other job
      is under way, and a dump finds memory; each refusal says which of these it was. */
  lemma StageExactly(j: Jobs, kind: Kind, rescue: bool, reflashing: bool, memory: bool)
    requires OneJob(j)
    ensures var answer := StageOf(j, kind, rescue, reflashing, memory).1;
      && (answer.Yes? <==> !rescue && !reflashing && Running(j) == 0 && (kind.BootDump? ==> j.dumpHeld || memory))
      && (answer.Rescue? <==> rescue)
      && (answer.Busy? <==> !rescue && (reflashing || Running(j) == 1))
  {
  }

  lemma RefusalChangesNothing(j: Jobs, kind: Kind, rescue: bool, reflashing: bool, memory: bool)
    ensures var (j', answer) := StageOf(j, kind, rescue, reflashing, memory); !answer.Yes? ==> j' == j
  {
  }

  /** A job that waits for a scan has asked for one. */
  lemma WaitingAsksForScan(kind: Kind, p: Pass)
    ensures EndOf(kind, p.started).NextScan? ==> AsksForScan(kind, p) && WaitsForScan(kind)
    ensures (EndOf(kind, p.started).HomeReport? ==> kind.Home?) && (EndOf(kind, p.started).SelfTestReport? ==> kind.SelfTest?)
  {
  }

  lemma ExecuteKeeps(j: Jobs, p: Pass)
    requires OneJob(j) && Possible(p) && j.pending
    ensures OneJob(Execute(j, p)) && Execute(j, p).counter == j.counter && j.stamps <= Execute(j, p).stamps
    ensures !Execute(j, p).pending
  {
    if EndOf(j.kind, p.started).AtOnce? {
      hide AsksForScan, EndOf, OneJob;
      var j1 := j.(pending := false, refreshPending := Execute(j, p).refreshPending);
      DumpAfterKeeps(j, j1, p.grade);
      StampKeeps(DumpAfter(j1, p.grade), p.grade);
    } else {
      WaitingAsksForScan(j.kind, p);
      hide AsksForScan, EndOf, DumpAfter, Stamp;
    }
  }

  lemma DumpAfterKeeps(j: Jobs, j1: Jobs, grade: Outcome)
    requires OneJob(j) && j.pending && j1 == j.(pending := false, refreshPending := j1.refreshPending)
    ensures var d := DumpAfter(j1, grade);
      && Running(d) == 0 && d.counter > 0 && |d.stamps| == d.counter - 1 && j.seqNo == j.counter
      && d == j1.(dumpHeld := d.dumpHeld, dumpSeq := d.dumpSeq)
      && OneJob(d.(pending := true, seqNo := d.counter, kind := Probe))
  {
  }

  /** The end of the one job that ran, told under its seq. */
  lemma StampKeeps(j: Jobs, outcome: Outcome)
    requires !outcome.Pending? && Running(j) == 0 && j.counter > 0 && |j.stamps| == j.counter - 1
    requires OneJob(j.(pending := true, seqNo := j.counter, kind := Probe))
    ensures OneJob(Stamp(j, j.counter, outcome))
  {
  }

  lemma SelfTestKeeps(j: Jobs, p: Pass)
    requires OneJob(j)
    ensures OneJob(SelfTestPolled(j, p)) && SelfTestPolled(j, p).counter == j.counter
    ensures j.stamps <= SelfTestPolled(j, p).stamps
  {
  }

  lemma HomeKeeps(j: Jobs, p: Pass)
    requires OneJob(j)
    ensures OneJob(HomePolled(j, p)) && HomePolled(j, p).counter == j.counter && j.stamps <= HomePolled(j, p).stamps
  {
  }

  lemma ScanKeeps(j: Jobs, p: Pass)
    requires OneJob(j) && Possible(p)
    ensures OneJob(Scanned(j, p)) && Scanned(j, p).counter == j.counter && j.stamps <= Scanned(j, p).stamps
  {
  }

  lemma TickKeeps(j: Jobs, p: Pass)
    requires OneJob(j) && Possible(p)
    ensures OneJob(LoopTicked(j, p)) && LoopTicked(j, p).counter == j.counter && j.stamps <= LoopTicked(j, p).stamps
  {
    hide OneJob, Execute, SelfTestPolled, HomePolled, Scanned;
    var j1 := if j.pending then Execute(j, p) else j;
    if j.pending { ExecuteKeeps(j, p); }
    var j2 := DumpExpired(j1, p);
    DumpExpiryKeeps(j1, p);
    SelfTestKeeps(j2, p);
    HomeKeeps(SelfTestPolled(j2, p), p);
    ScanKeeps(HomePolled(SelfTestPolled(j2, p), p), p);
  }

  lemma DumpExpiryKeeps(j: Jobs, p: Pass)
    requires OneJob(j)
    ensures OneJob(DumpExpired(j, p)) && DumpExpired(j, p).counter == j.counter && j.stamps == DumpExpired(j, p).stamps
  {
  }

  /** What a pass does to the bytes of a dump: those of one that ends well in it are there,
      and any are gone, if and only if the pass does not, or does, find them stale. */
  lemma PassAndDump(j: Jobs, p: Pass)
    requires OneJob(j) && Possible(p) && j.counter > 0
    ensures var t := LoopTicked(j, p);
      && t.kind == j.kind
      && (Running(j) == 0 ==> (t.dumpSeq == t.counter <==> j.dumpSeq == j.counter && !p.dumpStale))
      && (Running(j) == 1 && j.kind.BootDump? ==>
            && Running(t) == 0
            && (t.dumpSeq == t.counter <==> t.result.outcome.Ok? && !p.dumpStale))
  {
    var j1 := if j.pending then Execute(j, p) else j;
    if j.pending && j.kind.BootDump? { DumpExecuted(j, p); }
    if j.pending { KindStays(j, p); }
    PollsKeepDump(j1, p);
    hide Execute, SelfTestPolled, HomePolled, Scanned, DumpExpired;
    if j.pending && !j.kind.BootDump? { hide OneJob; }
  }

  /** After which jobs the bus is scanned: a restart to the bootloader, a boot section
      written or read, a probe, and an address job unless it was refused unsent. */
  lemma ScanIsAskedFor(j: Jobs, p: Pass)
    requires Possible(p)
    ensures Execute(j, p).refreshPending <==>
      || j.refreshPending
      || j.kind in {RebootToBootloader, BootUpdate, BootDump, Probe, ClearAddress}
      || (j.kind == SetAddress && (p.started || p.grade != ExecValidationFail))
  {
  }

  lemma KindStays(j: Jobs, p: Pass)
    ensures Execute(j, p).kind == j.kind && Execute(j, p).counter == j.counter
  {
    hide AsksForScan, EndOf;
  }

  lemma DumpExecuted(j: Jobs, p: Pass)
    requires OneJob(j) && Possible(p) && j.pending && j.kind.BootDump?
    ensures var t := Execute(j, p);
      && Running(t) == 0 && t.dumpHeld && t.result == Result(j.counter, p.grade)
      && t.dumpSeq == if p.grade.Ok? then j.counter else 0
  {
  }

  lemma PollsKeepDump(j: Jobs, p: Pass)
    requires !j.pending
    ensures var d := DumpExpired(j, p); var t := Scanned(HomePolled(SelfTestPolled(d, p), p), p);
      && t.dumpSeq == d.dumpSeq && t.kind == j.kind && t.counter == j.counter
      && d.dumpSeq == (if j.dumpHeld && p.dumpStale then 0 else j.dumpSeq)
      && (Running(j) == 0 ==> Running(t) == 0 && t.result == j.result)
  {
  }

  /** The newest job's result is in the slot exactly when nothing runs any more, and
      the slot never moves past it. */
  lemma NewestJobIsNeverExpired(j: Jobs)
    requires OneJob(j) && j.counter > 0
    ensures Query(j.result, j.counter) == if Running(j) == 0 then Found else StillPending
  {
  }

  // ---- every job can end -------------------------------------------------------------------

  /** What the job that runs is waiting for comes with this pass. */
  predicate Brings(j: Jobs, p: Pass) {
    var end := if j.pending then EndOf(j.kind, p.started)
               else if j.selfTestPolling then SelfTestReport
               else if j.homeSeq != 0 then HomeReport else NextScan;
    match end
    case AtOnce => true
    case SelfTestReport => !p.selfTest.Pending?
    case HomeReport => !p.home.Pending?
    case NextScan => !p.inhibited
  }

  /** A pass stamps the running job if and only if it brings what that waits for, the
      report or a scan outside the inhibit; the stamp is under its seq, and nothing
      runs any more. */
  lemma PassEndsTheJob(j: Jobs, p: Pass)
    requires OneJob(j) && Possible(p) && Running(j) == 1
    ensures var t := LoopTicked(j, p);
      if Brings(j, p)
      then Running(t) == 0 && |t.stamps| == |j.stamps| + 1 && t.result.seqNo == j.counter
      else Running(t) == 1 && t.stamps == j.stamps
  {
    TickKeeps(j, p);
    StampsByRunning(j);
    StampsByRunning(LoopTicked(j, p));
    hide OneJob;
    RunningAfter(j, p);
    if Running(LoopTicked(j, p)) == 1 { SamePrefix(j.stamps, LoopTicked(j, p).stamps); }
  }

  /** How a job ends, kind by kind: a home and a self-test that started with what the unit
      reports; a probe, and an address job that went out, with the scan; every other one at
      once, with what its own bus traffic was graded. */
  lemma JobEndsAsItsKindDoes(j: Jobs, p: Pass)
    requires OneJob(j) && Possible(p) && Running(j) == 1
    ensures var t, out := LoopTicked(j, p), !j.pending || p.started;
      if j.kind.Home? && out then Ended(t, !p.home.Pending?, p.home)
      else if j.kind.SelfTest? && out then Ended(t, !p.selfTest.Pending?, p.selfTest)
      else if j.kind.Probe? || ((j.kind.SetAddress? || j.kind.ClearAddress?) && out) then Ended(t, !p.inhibited, p.scan)
      else Ended(t, true, p.grade)
  {
    var j1 := if j.pending then Execute(j, p) else j;
    if j.pending { ExecuteByKind(j, p); }
    PollsByKind(j1, p);
    hide OneJob, Execute, SelfTestPolled, HomePolled, Scanned, DumpExpired, Running;
  }

  /** The job that ran has its result, or still runs. */
  predicate Ended(t: Jobs, ended: bool, outcome: Outcome) {
    if ended then Running(t) == 0 && t.result.outcome == outcome else Running(t) == 1
  }

  predicate Polled(t: Jobs, home: bool, selfTest: bool, scan: bool) {
    && !t.pending && (t.homeSeq != 0) == home && t.selfTestPolling == selfTest && (t.awaitSeq != 0) == scan
    && (scan ==> t.refreshPending)
  }

  lemma ExecuteByKind(j: Jobs, p: Pass)
    requires OneJob(j) && j.pending
    ensures var t := Execute(j, p);
      if j.kind.Home? && p.started then Polled(t, true, false, false)
      else if j.kind.SelfTest? && p.started then Polled(t, false, true, false)
      else if j.kind.Probe? || ((j.kind.SetAddress? || j.kind.ClearAddress?) && p.started) then Polled(t, false, false, true)
      else Polled(t, false, false, false) && t.result.outcome == p.grade
  {
  }

  lemma PollsByKind(j: Jobs, p: Pass)
    requires !j.pending
    ensures var t := Scanned(HomePolled(SelfTestPolled(DumpExpired(j, p), p), p), p);
      && (Polled(j, true, false, false) ==> Ended(t, !p.home.Pending?, p.home))
      && (Polled(j, false, true, false) ==> Ended(t, !p.selfTest.Pending?, p.selfTest))
      && (Polled(j, false, false, true) ==> Ended(t, !p.inhibited, p.scan))
      && (Polled(j, false, false, false) ==> Running(t) == 0 && t.result == j.result)
  {
  }

  lemma SamePrefix<T>(s: seq<T>, t: seq<T>)
    requires s <= t && |s| == |t|
    ensures s == t
  {
  }

  lemma StampsByRunning(j: Jobs)
    requires OneJob(j)
    ensures |j.stamps| + Running(j) == j.counter && Running(j) <= 1
    ensures Running(j) == 0 && j.counter > 0 ==> j.result.seqNo == j.counter
    ensures (j.awaitSeq != 0 ==> j.refreshPending) && (j.pending ==> j.seqNo != 0)
  {
  }

  lemma RunningAfter(j: Jobs, p: Pass)
    requires Running(j) == 1 && (j.pending ==> j.seqNo != 0) && (j.awaitSeq != 0 ==> j.refreshPending)
    ensures Running(LoopTicked(j, p)) == if Brings(j, p) then 0 else 1
  {
    if j.pending { ExecuteHandsOn(j, p); }
    PollsEnd(if j.pending then Execute(j, p) else j, p);
    hide Running, Brings, Execute, SelfTestPolled, HomePolled, Scanned, DumpExpired;
  }

  lemma ExecuteHandsOn(j: Jobs, p: Pass)
    requires Running(j) == 1 && j.pending && j.seqNo != 0
    ensures var t := Execute(j, p);
      && !t.pending && (t.awaitSeq != 0 ==> t.refreshPending)
      && (if Running(t) == 0 then Brings(j, p) else Running(t) == 1 && Brings(t, p) == Brings(j, p))
  {
    WaitingAsksForScan(j.kind, p);
    hide AsksForScan, EndOf;
  }

  lemma PollsEnd(j: Jobs, p: Pass)
    requires Running(j) <= 1 && !j.pending && (j.awaitSeq != 0 ==> j.refreshPending)
    ensures Running(Scanned(HomePolled(SelfTestPolled(DumpExpired(j, p), p), p), p))
         == if Running(j) == 1 && !Brings(j, p) then 1 else 0
  {
  }

  // ---- the module's own state ------------------------------------------------------------

  lemma NothingYetIsFine(j: Jobs)
    requires NothingYet(j)
    ensures OneJob(j) && Running(j) == 0
  {
  }

  class UnitJobs {
    var pending: bool
    var seqNo: nat
    var kind: Kind
    var counter: nat
    var result: Result
    var selfTestPolling: bool
    var selfTestSeq: nat
    var homeSeq: nat
    var awaitSeq: nat
    var refreshPending: bool
    var dumpHeld: bool
    var dumpSeq: nat
    ghost var stamps: seq<Result>

    ghost function Now(): Jobs
      reads this
    {
      Jobs(pending, seqNo, kind, counter, result, selfTestPolling, selfTestSeq, homeSeq, awaitSeq, refreshPending,
           dumpHeld, dumpSeq, stamps)
    }

    constructor ()
      ensures NothingYet(Now())
    {
      pending, seqNo, kind, counter, result := false, 0, Probe, 0, Result(0, Pending);
      selfTestPolling, selfTestSeq, homeSeq, awaitSeq, refreshPending := false, 0, 0, 0, false;
      dumpHeld, dumpSeq, stamps := false, 0, [];
    }

    method Stage(newKind: Kind, rescue: bool, reflashing: bool, memory: bool) returns (answer: Staged)
      modifies this
      ensures (Now(), answer) == StageOf(old(Now()), newKind, rescue, reflashing, memory)
    {
      if rescue { return Rescue; }
      if pending || selfTestPolling || homeSeq != 0 || awaitSeq != 0 || reflashing { return Busy; }
      if newKind.BootDump? {
        if !dumpHeld && !memory { return NoMemory; }
        dumpHeld := true;
      }
      counter := counter + 1;
      seqNo, kind, pending := counter, newKind, true;
      answer := Yes(seqNo);
    }

    method StampResult(forSeq: nat, outcome: Outcome)
      modifies this`result, this`stamps
      ensures result == Result(forSeq, outcome) && stamps == old(stamps) + [result]
    {
      result := Result(forSeq, outcome);
      stamps := stamps + [result];
    }

    method ExecuteStaged(p: Pass)
      modifies this
      ensures Now() == Execute(old(Now()), p)
    {
      hide AsksForScan, EndOf;
      refreshPending := refreshPending || AsksForScan(kind, p);
      pending := false;
      match EndOf(kind, p.started) {
        case HomeReport => homeSeq := seqNo;
        case SelfTestReport => selfTestPolling, selfTestSeq := true, seqNo;
        case NextScan => awaitSeq := seqNo;
        case AtOnce => EndAtOnce(p);
      }
    }

    method EndAtOnce(p: Pass)
      modifies this`dumpHeld, this`dumpSeq, this`result, this`stamps
      ensures Now() == Stamp(DumpAfter(old(Now()), p.grade), seqNo, p.grade)
    {
      if kind.ReflashUnit? { dumpHeld, dumpSeq := false, 0; }
      if kind.BootDump? { dumpSeq := if p.grade.Ok? then seqNo else 0; }
      StampResult(seqNo, p.grade);
    }

    method PollSelfTest(p: Pass)
      modifies this
      ensures Now() == SelfTestPolled(old(Now()), p)
    {
      if selfTestPolling && !p.selfTest.Pending? {
        selfTestPolling := false;
        StampResult(selfTestSeq, p.selfTest);
      }
    }

    method PollHome(p: Pass)
      modifies this
      ensures Now() == HomePolled(old(Now()), p)
    {
      if homeSeq != 0 && !p.home.Pending? {
        StampResult(homeSeq, p.home);
        homeSeq := 0;
      }
    }

    method Rescan(p: Pass)
      modifies this
      ensures Now() == Scanned(old(Now()), p)
    {
      if refreshPending && !p.inhibited {
        refreshPending := false;
        if awaitSeq != 0 {
          StampResult(awaitSeq, p.scan);
          awaitSeq := 0;
        }
      }
    }

    method ReleaseDump(p: Pass)
      modifies this
      ensures Now() == DumpExpired(old(Now()), p)
    {
      if dumpHeld && !pending && p.dumpStale { dumpHeld, dumpSeq := false, 0; }
    }

    method LoopTick(p: Pass)
      modifies this
      ensures Now() == LoopTicked(old(Now()), p)
    {
      hide Execute, DumpExpired, SelfTestPolled, HomePolled, Scanned;
      if pending { ExecuteStaged(p); }
      ReleaseDump(p);
      PollSelfTest(p);
      PollHome(p);
      Rescan(p);
    }
  }
}

/** FollowerLink.cpp, the job part: the master's one job on this row and the end that
    is told over a connection that may drop at any message. */
module FollowerLink {
  import opened Wrappers
  import opened FollowerUnitJobs

  const BOOT_SECTION_LEN: nat := 1024

  datatype Phase = OpRunning | OpOk | OpFailed | OpRefused

  datatype Message = OpState(opId: nat, phase: Phase, outcome: Outcome, offset: nat, len: nat)

  datatype LinkOp = LinkOp(active: bool, opId: nat, seqNo: nat, kind: Kind)

  /** The link, the jobs behind it, every job accepted and every message written; whether
      a pass since the last stamp, its own included, has found the bytes of a dump stale,
      and whether one had when each end was told. */
  datatype Link = Link(jobs: Jobs, op: LinkOp, welcomed: bool, accepted: seq<(nat, Kind)>, wire: seq<Message>,
                       stale: bool, told: seq<bool>)

  predicate Terminal(m: Message) { m.phase.OpOk? || m.phase.OpFailed? }

  function PieceLen(total: nat, offset: nat, pieceMax: nat): nat {
    if offset >= total then 0 else if total - offset < pieceMax then total - offset else pieceMax
  }

  /** A dump's messages from `offset` on: running, and done with the last byte. */
  function Pieces(opId: nat, offset: nat, pieceMax: nat): seq<Message>
    requires pieceMax > 0
    decreases BOOT_SECTION_LEN - offset
  {
    if offset >= BOOT_SECTION_LEN then []
    else
      var n := PieceLen(BOOT_SECTION_LEN, offset, pieceMax);
      [OpState(opId, if offset + n >= BOOT_SECTION_LEN then OpOk else OpRunning, Pending, offset, n)]
      + Pieces(opId, offset + n, pieceMax)
  }

  predicate HasDump(l: Link) {
    l.jobs.dumpSeq == l.op.seqNo
  }

  /** What the end of the job is told with. */
  function EndMessages(l: Link, pieceMax: nat): seq<Message>
    requires pieceMax > 0
  {
    var r := l.jobs.result;
    if Query(r, l.op.seqNo).Expired? then [OpState(l.op.opId, OpFailed, Pending, 0, 0)]
    else if l.op.kind.BootDump? && r.outcome.Ok? then
      if HasDump(l) then Pieces(l.op.opId, 0, pieceMax) else [OpState(l.op.opId, OpFailed, Pending, 0, 0)]
    else if r.outcome.Ok? then [OpState(l.op.opId, OpOk, Ok, 0, 0)]
    else [OpState(l.op.opId, OpFailed, r.outcome, 0, 0)]
  }

  /** Writes messages until one fails; a failed write drops the connection. */
  function SendAll(l: Link, ms: seq<Message>, room: nat): Link {
    if room < |ms| then l.(wire := l.wire + ms[..room], welcomed := false) else l.(wire := l.wire + ms)
  }

  function OpTicked(l: Link, pieceMax: nat, room: nat): Link
    requires pieceMax > 0
  {
    if !l.op.active || Query(l.jobs.result, l.op.seqNo).StillPending? then l
    else
      var ms := EndMessages(l, pieceMax);
      var sent := SendAll(l, ms, room);
      if room < |ms| then sent else sent.(op := sent.op.(active := false), told := l.told + [l.stale])
  }

  datatype Event =
    | Op(opId: nat, plan: Option<Kind>, rescue: bool, reflashing: bool, memory: bool, room: nat)
    | JobsPass(p: Pass)
    | OpTick(pieceMax: nat, room: nat)
    | Drop
    | Welcome

  function Refused(l: Link, opId: nat, room: nat): Link {
    SendAll(l, [OpState(opId, OpRefused, Pending, 0, 0)], room)
  }

  function OpHandled(l: Link, e: Event): Link
    requires e.Op?
  {
    if e.rescue || l.op.active || e.plan.None? then Refused(l, e.opId, e.room)
    else
      var (jobs, answer) := StageOf(l.jobs, e.plan.value, e.rescue, e.reflashing, e.memory);
      if !answer.Yes? then Refused(l, e.opId, e.room)
      else
        SendAll(l.(jobs := jobs, op := LinkOp(true, e.opId, answer.seqNo, e.plan.value),
                   accepted := l.accepted + [(e.opId, e.plan.value)]),
                [OpState(e.opId, OpRunning, Pending, 0, 0)], e.room)
  }

  predicate CanHappen(l: Link, e: Event) {
    match e
    case JobsPass(p) => Possible(p)
    case OpTick(pieceMax, _) => pieceMax > 0 && l.welcomed
    case _ => true
  }

  function Passed(l: Link, p: Pass): Link {
    var jobs := LoopTicked(l.jobs, p);
    l.(jobs := jobs, stale := p.dumpStale || (l.stale && |jobs.stamps| == |l.jobs.stamps|))
  }

  function Step(l: Link, e: Event): Link
    requires CanHappen(l, e)
  {
    match e
    case Op(_, _, _, _, _, _) => OpHandled(l, e)
    case JobsPass(p) => Passed(l, p)
    case OpTick(pieceMax, room) => OpTicked(l, pieceMax, room)
    case Drop => l.(welcomed := false)
    case Welcome => l.(welcomed := true)
  }

  // ---- what every run keeps ---------------------------------------------------------------

  /** The messages that end a job, in the order they were written. */
  function Ends(wire: seq<Message>): seq<Message> {
    if wire == [] then []
    else Ends(wire[..|wire| - 1]) + if Terminal(wire[|wire| - 1]) then [wire[|wire| - 1]] else []
  }

  lemma {:induction false} EndsConcat(a: seq<Message>, b: seq<Message>)
    ensures Ends(a + b) == Ends(a) + Ends(b)
  {
    if b == [] {
      assert a + b == a;
    } else {
      EndsConcat(a, b[..|b| - 1]);
      assert (a + b)[..|a + b| - 1] == a + b[..|b| - 1];
    }
  }

  /** What the end of a job says: done if and only if it was stamped so and is not a dump
      whose bytes went stale first; failed with the outcome it was stamped with, or none
      for such a dump. */
  predicate Truthful(m: Message, job: (nat, Kind), stamp: Result, stale: bool) {
    && m.opId == job.0
    && (m.phase.OpOk? <==> stamp.outcome.Ok? && !(job.1.BootDump? && stale))
    && (m.phase.OpFailed? ==> m.outcome == if stamp.outcome.Ok? then Pending else stamp.outcome)
  }

  ghost predicate Inv(l: Link) {
    var ends := Ends(l.wire);
    && OneJob(l.jobs)
    && |l.accepted| == l.jobs.counter == |ends| + Count(l.op.active)
    && |l.told| == |ends|
    && (l.op.active ==> l.op.seqNo == l.jobs.counter && (l.op.opId, l.op.kind) == l.accepted[|l.accepted| - 1]
                        && l.op.kind == l.jobs.kind)
    && (l.op.active && l.op.kind.BootDump? && Running(l.jobs) == 0 ==>
          (HasDump(l) <==> l.jobs.result.outcome.Ok? && !l.stale))
    && (!l.op.active ==> Running(l.jobs) == 0)
    && (forall k :: 0 <= k < |ends| ==> k < |l.jobs.stamps| && Truthful(ends[k], l.accepted[k], l.jobs.stamps[k], l.told[k]))
  }

  /** A dump's pieces lie end to end from 0 to the section's length, and only the
      piece with the last byte ends the job. */
  lemma {:induction false} PiecesCoverTheSection(opId: nat, offset: nat, pieceMax: nat)
    requires pieceMax > 0 && offset < BOOT_SECTION_LEN
    ensures var ms := Pieces(opId, offset, pieceMax);
      && |ms| > 0 && ms[0].offset == offset
      && (forall k :: 0 <= k < |ms| ==> 0 < ms[k].len <= pieceMax && ms[k].opId == opId)
      && (forall k :: 0 <= k < |ms| - 1 ==> ms[k + 1].offset == ms[k].offset + ms[k].len && ms[k].phase.OpRunning?)
      && (forall k :: 0 <= k < |ms| - 1 ==> ms[k].len == pieceMax)
      && ms[|ms| - 1].offset + ms[|ms| - 1].len == 1024 && ms[|ms| - 1].phase.OpOk?
    decreases BOOT_SECTION_LEN - offset
  {
    hide Pieces;
    var n := PieceLen(BOOT_SECTION_LEN, offset, pieceMax);
    var ms, rest := Pieces(opId, offset, pieceMax), Pieces(opId, offset + n, pieceMax);
    PiecesStep(opId, offset, pieceMax);
    if offset + n < BOOT_SECTION_LEN {
      PiecesCoverTheSection(opId, offset + n, pieceMax);
      assert forall k :: 0 < k < |ms| ==> ms[k] == rest[k - 1];
    }
  }

  lemma PiecesStep(opId: nat, offset: nat, pieceMax: nat)
    requires pieceMax > 0 && offset < BOOT_SECTION_LEN
    ensures var n := PieceLen(BOOT_SECTION_LEN, offset, pieceMax);
      Pieces(opId, offset, pieceMax)
      == [OpState(opId, if offset + n >= BOOT_SECTION_LEN then OpOk else OpRunning, Pending, offset, n)]
         + Pieces(opId, offset + n, pieceMax)
    ensures PieceLen(BOOT_SECTION_LEN, offset, pieceMax) > 0
    ensures offset + PieceLen(BOOT_SECTION_LEN, offset, pieceMax) >= BOOT_SECTION_LEN
        ==> Pieces(opId, offset + PieceLen(BOOT_SECTION_LEN, offset, pieceMax), pieceMax) == []
  {
  }

  /** However far a write gets, the only end among the messages is the last one. */
  lemma EndsOfPrefix(ms: seq<Message>, n: nat)
    requires n <= |ms| && |ms| > 0 && Terminal(ms[|ms| - 1])
    requires forall k :: 0 <= k < |ms| - 1 ==> !Terminal(ms[k])
    ensures Ends(ms[..n]) == if n == |ms| then [ms[|ms| - 1]] else []
  {
    if n > 0 {
      assert ms[..n][..n - 1] == ms[..n - 1];
      NoEnds(ms[..n - 1]);
    }
  }

  lemma {:induction false} NoEnds(ms: seq<Message>)
    requires forall k :: 0 <= k < |ms| ==> !Terminal(ms[k])
    ensures Ends(ms) == []
  {
    if ms != [] { NoEnds(ms[..|ms| - 1]); }
  }

  lemma EndMessagesEndOnce(l: Link, pieceMax: nat)
    requires Inv(l) && pieceMax > 0 && l.op.active && !Query(l.jobs.result, l.op.seqNo).StillPending?
    ensures var ms := EndMessages(l, pieceMax);
      && |ms| > 0 && Terminal(ms[|ms| - 1])
      && (forall k :: 0 <= k < |ms| - 1 ==> !Terminal(ms[k]))
      && Running(l.jobs) == 0
      && Truthful(ms[|ms| - 1], l.accepted[|l.accepted| - 1], l.jobs.result, l.stale)
  {
    NewestJobIsNeverExpired(l.jobs);
    PiecesCoverTheSection(l.op.opId, 0, pieceMax);
  }

  /** The branch for a lost result is never taken. */
  lemma EndIsNeverExpired(l: Link)
    requires Inv(l) && l.op.active
    ensures !Query(l.jobs.result, l.op.seqNo).Expired?
  {
    NewestJobIsNeverExpired(l.jobs);
  }

  lemma OpTickKeeps(l: Link, pieceMax: nat, room: nat)
    requires Inv(l) && pieceMax > 0
    ensures Inv(OpTicked(l, pieceMax, room))
  {
    if l.op.active && !Query(l.jobs.result, l.op.seqNo).StillPending? {
      hide EndMessages, Ends, OneJob, Truthful, Running, Query, Inv;
      var ms := EndMessages(l, pieceMax);
      var n := if room < |ms| then room else |ms|;
      EndsWritten(l, pieceMax, n);
      assert ms[..|ms|] == ms;
      assert Running(l.jobs) == 0 by { EndMessagesEndOnce(l, pieceMax); }
      WrittenKeeps(l, OpTicked(l, pieceMax, room), n == |ms|, ms[|ms| - 1]);
    }
  }

  lemma WrittenKeeps(l: Link, t: Link, ended: bool, end: Message)
    requires Inv(l) && l.op.active && Running(l.jobs) == 0 && |l.accepted| > 0
    requires t == l.(op := l.op.(active := !ended), wire := t.wire, welcomed := t.welcomed,
                     told := if ended then l.told + [l.stale] else l.told)
    requires Ends(t.wire) == Ends(l.wire) + (if ended then [end] else [])
    requires Truthful(end, l.accepted[|l.accepted| - 1], l.jobs.result, l.stale)
    ensures Inv(t)
  {
    hide Ends, OneJob, Truthful, Running;
    LastStamp(l.jobs);
  }

  /** What the first `n` of the messages add to the ends. */
  lemma EndsWritten(l: Link, pieceMax: nat, n: nat)
    requires Inv(l) && pieceMax > 0 && l.op.active && !Query(l.jobs.result, l.op.seqNo).StillPending?
    requires n <= |EndMessages(l, pieceMax)|
    ensures var ms := EndMessages(l, pieceMax);
      && |ms| > 0 && |l.accepted| > 0 && Truthful(ms[|ms| - 1], l.accepted[|l.accepted| - 1], l.jobs.result, l.stale)
      && Ends(l.wire + ms[..n]) == Ends(l.wire) + if n == |ms| then [ms[|ms| - 1]] else []
  {
    EndMessagesEndOnce(l, pieceMax);
    hide EndMessages, Ends, Inv, Truthful, Query;
    EndsOfPrefix(EndMessages(l, pieceMax), n);
    EndsConcat(l.wire, EndMessages(l, pieceMax)[..n]);
  }

  lemma LastStamp(j: Jobs)
    requires OneJob(j) && Running(j) == 0 && j.counter > 0
    ensures |j.stamps| == j.counter && j.result == j.stamps[|j.stamps| - 1]
  {
  }

  lemma OneMessageKeeps(l: Link, m: Message, room: nat)
    requires Inv(l) && !Terminal(m)
    ensures Inv(SendAll(l, [m], room))
  {
    var l' := SendAll(l, [m], room);
    NoEnds([m]);
    EndsConcat(l.wire, [m]);
    assert [m][..0] == [] && l.wire + [] == l.wire && Ends(l.wire) + [] == Ends(l.wire);
    assert Ends(l'.wire) == Ends(l.wire);
    SameEndsKeep(l, l');
    hide Inv, Ends;
  }

  lemma SameEndsKeep(l: Link, t: Link)
    requires Inv(l) && t == l.(wire := t.wire, welcomed := t.welcomed) && Ends(t.wire) == Ends(l.wire)
    ensures Inv(t)
  {
    hide Ends, Truthful;
  }

  lemma AcceptKeeps(l: Link, e: Event)
    requires Inv(l) && e.Op? && !l.op.active && e.plan.Some?
    requires StageOf(l.jobs, e.plan.value, e.rescue, e.reflashing, e.memory).1.Yes?
    ensures var (jobs, answer) := StageOf(l.jobs, e.plan.value, e.rescue, e.reflashing, e.memory);
      Inv(l.(jobs := jobs, op := LinkOp(true, e.opId, answer.seqNo, e.plan.value),
             accepted := l.accepted + [(e.opId, e.plan.value)]))
  {
    StageKeeps(l.jobs, e.plan.value, e.rescue, e.reflashing, e.memory);
    hide OneJob, Ends, Truthful, StageOf, Running;
  }

  lemma HandleOpKeeps(l: Link, e: Event)
    requires Inv(l) && e.Op?
    ensures Inv(OpHandled(l, e))
  {
    OneMessageKeeps(l, OpState(e.opId, OpRefused, Pending, 0, 0), e.room);
    if !e.rescue && !l.op.active && e.plan.Some? {
      var (jobs, answer) := StageOf(l.jobs, e.plan.value, e.rescue, e.reflashing, e.memory);
      if answer.Yes? {
        AcceptKeeps(l, e);
        OneMessageKeeps(l.(jobs := jobs, op := LinkOp(true, e.opId, answer.seqNo, e.plan.value),
                           accepted := l.accepted + [(e.opId, e.plan.value)]),
                        OpState(e.opId, OpRunning, Pending, 0, 0), e.room);
      }
    }
    hide Inv, StageOf, SendAll;
  }

  lemma JobsPassKeeps(l: Link, p: Pass)
    requires Inv(l) && Possible(p)
    ensures Inv(Passed(l, p))
  {
    TickKeeps(l.jobs, p);
    if !l.op.active { IdleStaysIdle(l.jobs, p); }
    if l.op.active {
      PassAndDump(l.jobs, p);
      StampsCount(l.jobs);
      StampsCount(LoopTicked(l.jobs, p));
    }
    hide LoopTicked, OneJob, Running, Ends, Truthful;
  }

  lemma StampsCount(j: Jobs)
    requires OneJob(j)
    ensures |j.stamps| + Running(j) == j.counter && Running(j) <= 1
  {
  }

  lemma IdleStaysIdle(j: Jobs, p: Pass)
    requires OneJob(j) && Running(j) == 0
    ensures Running(LoopTicked(j, p)) == 0
  {
  }

  lemma StepKeeps(l: Link, e: Event)
    requires Inv(l) && CanHappen(l, e)
    ensures Inv(Step(l, e))
  {
    match e
    case Op(_, _, _, _, _, _) => HandleOpKeeps(l, e);
    case JobsPass(p) => JobsPassKeeps(l, p);
    case OpTick(pieceMax, room) => OpTickKeeps(l, pieceMax, room);
    case Drop =>
    case Welcome =>
  }

  /** The row's job is still open after each of these. */
  ghost predicate StaysOpen(l: Link, es: seq<Event>)
    requires CanRun(l, es)
    decreases |es|
  {
    l.op.active && (es != [] ==> StaysOpen(Step(l, es[0]), es[1..]))
  }

  /** A dump that was read well and has not gone stale is told whole: with room for them,
      its pieces from 0 to the end of the section, the last of them as done. */
  lemma DumpToldWhole(l: Link, pieceMax: nat, room: nat)
    requires Inv(l) && pieceMax > 0 && l.op.active && l.op.kind.BootDump? && Running(l.jobs) == 0
    requires l.jobs.result.outcome.Ok? && !l.stale && room >= |Pieces(l.op.opId, 0, pieceMax)|
    ensures var t, ms := OpTicked(l, pieceMax, room), Pieces(l.op.opId, 0, pieceMax);
      && t.wire == l.wire + ms && !t.op.active && t.welcomed == l.welcomed
      && |ms| > 0 && ms[0].offset == 0 && ms[|ms| - 1].phase.OpOk?
      && ms[|ms| - 1].offset + ms[|ms| - 1].len == BOOT_SECTION_LEN
      && (forall k :: 0 <= k < |ms| ==> 0 < ms[k].len <= pieceMax && ms[k].opId == l.op.opId)
      && (forall k :: 0 <= k < |ms| - 1 ==> ms[k + 1].offset == ms[k].offset + ms[k].len && ms[k].phase.OpRunning?)
  {
    NewestJobIsNeverExpired(l.jobs);
    PiecesCoverTheSection(l.op.opId, 0, pieceMax);
    DumpIsTheEnd(l, pieceMax);
    hide OneJob, Ends, Truthful, Running, Pieces, EndMessages, Inv;
  }

  lemma DumpIsTheEnd(l: Link, pieceMax: nat)
    requires Inv(l) && pieceMax > 0 && l.op.active && l.op.kind.BootDump? && Running(l.jobs) == 0
    requires l.jobs.result.outcome.Ok? && !l.stale
    ensures EndMessages(l, pieceMax) == Pieces(l.op.opId, 0, pieceMax)
    ensures !Query(l.jobs.result, l.op.seqNo).StillPending?
  {
    NewestJobIsNeverExpired(l.jobs);
    hide OneJob, Ends, Truthful, Running, Pieces;
  }

  /** An end that does not get out whole drops the connection and leaves the job open, to be
      told from the start on the next one; one that does closes it. */
  lemma EndGoesOutOrStays(l: Link, pieceMax: nat, room: nat)
    requires Inv(l) && pieceMax > 0 && l.op.active && Running(l.jobs) == 0
    ensures var t, ms := OpTicked(l, pieceMax, room), EndMessages(l, pieceMax);
      && t.jobs == l.jobs && t.accepted == l.accepted
      && (if room < |ms| then t.op == l.op && !t.welcomed && t.wire == l.wire + ms[..room]
          else !t.op.active && t.welcomed == l.welcomed && t.wire == l.wire + ms)
  {
    NewestJobIsNeverExpired(l.jobs);
    hide OneJob, Ends, Truthful, Running, EndMessages;
  }

  /** Every request is answered once and at once: told as running exactly if the row is not
      in rescue or under a unit update, has no other job, knows what to do, and has the
      memory for a dump; refused otherwise, and then nothing has changed. */
  lemma RequestIsAnswered(l: Link, e: Event)
    requires Inv(l) && e.Op? && e.room > 0
    ensures var t := OpHandled(l, e);
      var taken := !e.rescue && !e.reflashing && !l.op.active && e.plan.Some?
                   && (e.plan.value.BootDump? ==> l.jobs.dumpHeld || e.memory);
      && t.wire == l.wire + [OpState(e.opId, if taken then OpRunning else OpRefused, Pending, 0, 0)]
      && t.op.active == (l.op.active || taken)
      && (taken ==> t.op.opId == e.opId && t.op.kind == e.plan.value && t.accepted == l.accepted + [(e.opId, e.plan.value)])
      && (!taken ==> t.jobs == l.jobs && t.op == l.op && t.accepted == l.accepted)
  {
    if e.plan.Some? {
      StageExactly(l.jobs, e.plan.value, e.rescue, e.reflashing, e.memory);
      RefusalChangesNothing(l.jobs, e.plan.value, e.rescue, e.reflashing, e.memory);
    }
    hide OneJob, Ends, Truthful, StageOf;
  }

  /** When a dump that was read is told as gone: while the job is open, its bytes are
      kept until the first pass that finds them stale, whatever is asked, told or
      dropped in between. */
  lemma {:induction false} DumpKeptUntilStale(l: Link, es: seq<Event>)
    requires Inv(l) && CanRun(l, es) && StaysOpen(l, es) && Running(l.jobs) == 0 && HasDump(l)
    ensures var t := Run(l, es);
      && t.op == l.op && t.jobs.result == l.jobs.result
      && (HasDump(t) <==> forall e :: e in es && e.JobsPass? ==> !e.p.dumpStale)
    decreases |es|
  {
    hide Inv, OneJob, EndMessages;
    if es != [] {
      StepKeeps(l, es[0]);
      OpenStep(l, es[0]);
      if HasDump(Step(l, es[0])) {
        DumpKeptUntilStale(Step(l, es[0]), es[1..]);
      } else {
        DumpStaysGone(Step(l, es[0]), es[1..]);
      }
      assert forall e :: e in es <==> e == es[0] || e in es[1..];
    }
  }

  lemma {:induction false} DumpStaysGone(l: Link, es: seq<Event>)
    requires Inv(l) && CanRun(l, es) && StaysOpen(l, es) && Running(l.jobs) == 0 && !HasDump(l)
    ensures var t := Run(l, es); t.op == l.op && t.jobs.result == l.jobs.result && !HasDump(t)
    decreases |es|
  {
    hide Inv, OneJob, EndMessages;
    if es != [] {
      StepKeeps(l, es[0]);
      OpenStep(l, es[0]);
      DumpStaysGone(Step(l, es[0]), es[1..]);
    }
  }

  /** One event on a job that is stamped and stays open. */
  lemma OpenStep(l: Link, e: Event)
    requires Inv(l) && CanHappen(l, e) && l.op.active && Step(l, e).op.active && Running(l.jobs) == 0
    ensures var t := Step(l, e);
      && t.op == l.op && Running(t.jobs) == 0 && t.jobs.result == l.jobs.result
      && (HasDump(t) <==> HasDump(l) && !(e.JobsPass? && e.p.dumpStale))
  {
    hide EndMessages, Ends, Truthful;
  }

  ghost predicate CanRun(l: Link, es: seq<Event>)
    decreases |es|
  {
    es != [] ==> CanHappen(l, es[0]) && CanRun(Step(l, es[0]), es[1..])
  }

  function Run(l: Link, es: seq<Event>): Link
    requires CanRun(l, es)
    decreases |es|
  {
    if es == [] then l else Run(Step(l, es[0]), es[1..])
  }

  /** After a start: no job yet, nothing written. */
  predicate AfterBoot(l: Link) {
    NothingYet(l.jobs) && !l.op.active && !l.welcomed && l.accepted == [] && l.wire == [] && l.told == []
  }

  lemma AfterBootIsFine(l: Link)
    requires AfterBoot(l)
    ensures Inv(l)
  {
    NothingYetIsFine(l.jobs);
    hide OneJob;
  }

  lemma {:induction false} RunKeeps(l: Link, es: seq<Event>)
    requires Inv(l) && CanRun(l, es)
    ensures Inv(Run(l, es))
    decreases |es|
  {
    if es != [] {
      StepKeeps(l, es[0]);
      RunKeeps(Step(l, es[0]), es[1..]);
    }
  }

  /** Over every run of jobs, polls, scans, failed writes and dropped connections:
      the ends written to the master are, in order, one for each job accepted, but
      for the one still open; each tells how that very job was stamped; and no other
      job is staged before the open one has ended. */
  lemma EveryJobEndsOnceAndTruly(start: Link, es: seq<Event>)
    requires AfterBoot(start) && CanRun(start, es)
    ensures var l := Run(start, es); var ends := Ends(l.wire);
      && |l.accepted| == |ends| + Count(l.op.active)
      && (forall k :: 0 <= k < |ends| ==> k < |l.jobs.stamps| && l.jobs.stamps[k].seqNo == k + 1 && k < |l.told|
                                          && Truthful(ends[k], l.accepted[k], l.jobs.stamps[k], l.told[k]))
      && Running(l.jobs) <= Count(l.op.active)
      && (l.op.active ==> !Query(l.jobs.result, l.op.seqNo).Expired?)
  {
    AfterBootIsFine(start);
    RunKeeps(start, es);
    hide Run, Ends, Truthful;
    var l := Run(start, es);
    if l.op.active { EndIsNeverExpired(l); }
  }

  // ---- the module's own state ---------------------------------------------------------------

  class RowLink {
    const jobs: UnitJobs
    var op: LinkOp
    var welcomed: bool
    ghost var accepted: seq<(nat, Kind)>
    ghost var wire: seq<Message>
    ghost var stale: bool
    ghost var told: seq<bool>

    ghost function Now(): Link
      reads this, jobs
    {
      Link(jobs.Now(), op, welcomed, accepted, wire, stale, told)
    }

    constructor ()
      ensures AfterBoot(Now()) && fresh(jobs)
    {
      jobs := new UnitJobs();
      op, welcomed, accepted, wire := LinkOp(false, 0, 0, Probe), false, [], [];
      stale, told := false, [];
    }

    /** One message; a write that fails drops the connection. */
    method Send(m: Message, goesOut: bool) returns (sent: bool)
      modifies this`wire, this`welcomed
      ensures sent == goesOut
      ensures wire == old(wire) + (if goesOut then [m] else []) && welcomed == (old(welcomed) && goesOut)
    {
      if goesOut { wire := wire + [m]; } else { welcomed := false; }
      sent := goesOut;
    }

    method HandleOp(opId: nat, plan: Option<Kind>, rescue: bool, reflashing: bool, memory: bool, goesOut: bool)
      modifies this, jobs
      ensures Now() == OpHandled(old(Now()), Event.Op(opId, plan, rescue, reflashing, memory, Count(goesOut)))
    {
      hide StageOf;
      var refusal := OpState(opId, OpRefused, Pending, 0, 0);
      if rescue || op.active || plan.None? {
        var sent := Send(refusal, goesOut);
        return;
      }
      var answer := jobs.Stage(plan.value, rescue, reflashing, memory);
      if !answer.Yes? {
        RefusalChangesNothing(old(jobs.Now()), plan.value, rescue, reflashing, memory);
        var sent := Send(refusal, goesOut);
        return;
      }
      op := LinkOp(true, opId, answer.seqNo, plan.value);
      accepted := accepted + [(opId, plan.value)];
      var sent := Send(OpState(opId, OpRunning, Pending, 0, 0), goesOut);
    }

    /** A pass of the loop, with the link idle. */
    method LoopPass(p: Pass)
      modifies jobs, this`stale
      ensures Now() == Passed(old(Now()), p)
    {
      ghost var before := |jobs.stamps|;
      jobs.LoopTick(p);
      stale := p.dumpStale || (stale && |jobs.stamps| == before);
    }

    /** Tells how the open job ended, if that is known. The connection takes `room`
        messages. */
    method OpTick(pieceMax: nat, room: nat)
      requires pieceMax > 0
      modifies this
      ensures Now() == OpTicked(old(Now()), pieceMax, room)
    {
      if !op.active { return; }
      var state := Query(jobs.result, op.seqNo);
      if state.StillPending? { return; }
      var sent := false;
      var outcome := jobs.result.outcome;
      if state.Expired? {
        sent := Send(OpState(op.opId, OpFailed, Pending, 0, 0), room > 0);
      } else if op.kind.BootDump? && outcome.Ok? && jobs.dumpSeq != op.seqNo {
        sent := Send(OpState(op.opId, OpFailed, Pending, 0, 0), room > 0);
      } else if op.kind.BootDump? && outcome.Ok? {
        sent := SendDump(pieceMax, room);
      } else {
        sent := Send(OpState(op.opId, if outcome.Ok? then OpOk else OpFailed, outcome, 0, 0), room > 0);
      }
      if !sent { return; }
      op := op.(active := false);
      told := told + [stale];
    }

    method SendDump(pieceMax: nat, room: nat) returns (sent: bool)
      requires pieceMax > 0
      modifies this`wire, this`welcomed
      ensures var ms := Pieces(op.opId, 0, pieceMax);
        && sent == (room >= |ms|)
        && wire == old(wire) + (if sent then ms else ms[..room])
        && welcomed == (old(welcomed) && sent)
    {
      sent := true;
      var offset, done := 0, 0;
      ghost var ms := Pieces(op.opId, 0, pieceMax);
      while sent && offset < BOOT_SECTION_LEN
        invariant 0 <= done <= |ms|
        invariant sent ==> ms[done..] == Pieces(op.opId, offset, pieceMax) && done <= room && welcomed == old(welcomed)
        invariant wire == old(wire) + ms[..done]
        invariant !sent ==> done == room < |ms| && !welcomed
        decreases sent, BOOT_SECTION_LEN - offset
      {
        var n := PieceLen(BOOT_SECTION_LEN, offset, pieceMax);
        var last := offset + n >= BOOT_SECTION_LEN;
        var piece := OpState(op.opId, if last then OpOk else OpRunning, Pending, offset, n);
        assert ms[done..][0] == piece == ms[done] && ms[done..][1..] == ms[done + 1..];
        sent := Send(piece, done < room);
        if sent { done := done + 1; }
        assert sent ==> ms[..done] == ms[..done - 1] + [piece];
        offset := offset + n;
      }
      assert sent ==> ms[..done] == ms;
    }
  }
}
