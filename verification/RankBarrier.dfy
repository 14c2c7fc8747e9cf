/**
 The ranks of a performance check, coordinated by marker files in a fresh shared directory
 (`mark`, `wait_all`, `rank_main`), and rank 0's collection and certification (`main`,
 `stamp_install`), as a state machine in which any rank may take the next step.

 Barrier stages are numbered in program order: 0 start, 1 open, 2 fs, 3 imports, and on a
 GPU rank 4 cold.
 */
module RankBarrier {

  datatype Verdict = Pass | Warn | Fail

  /** `gpu` is the branch each rank takes; `kind` and `line` say whether a stamp has a place. */
  datatype Config = Config(n: nat, gpu: nat -> bool, cpuOnly: bool, kind: bool, line: bool)

  function Stages(c: Config, r: nat): nat { if c.gpu(r) then 5 else 4 }

  datatype Report = Report(error: bool, gpu: bool)

  /** A result file: being written, or complete. */
  datatype File = Partial | Full(report: Report)

  datatype Pc =
    | Marking                 // about to mark stage number `marked`
    | Waiting(checked: nat)   // in wait_all for stage `marked` - 1, markers 0 .. checked - 1 seen in this scan
    | Writing
    | InWrite
    | Closing                 // result written, done marker next
    | Failing                 // an exception reached main
    | InFailWrite
    | FailClosing
    | Ended

  /** `passed` holds what each finished wait_all returned. */
  datatype Rank = Rank(pc: Pc, marked: nat, passed: seq<bool>)

  datatype Main = Idle | WaitingDone(checked: nat) | Reading | Finished

  datatype State = State(
    ranks: seq<Rank>,
    marks: set<(nat, nat)>,
    dones: set<nat>,
    files: map<nat, File>,
    main: Main,
    results: seq<File>,
    verdict: Verdict,
    stamped: bool)

  datatype Step =
    | Mark(r: nat)
    | Look(r: nat)
    | PassWait(r: nat)
    | TimeOut(r: nat)
    | BeginWrite(r: nat)
    | EndWrite(r: nat)
    | MarkDone(r: nat)
    | Raise(r: nat)
    | MainStart
    | MainLook
    | MainGoOn
    | MainTimeOut
    | Read
    | Judge(v: Verdict)

  function Init(c: Config): State {
    State(seq(c.n, _ => Rank(Marking, 0, [])), {}, {}, map[], Idle, [], Pass, false)
  }

  /** A scan sees the next marker and goes on, or misses it and starts over after a pause. */
  function Seen(there: bool, checked: nat): nat { if there then checked + 1 else 0 }

  /** After a wait, whatever it returned: the next stage, or the result file. */
  function AfterWait(c: Config, r: nat, k: Rank, result: bool): Rank {
    Rank(if k.marked < Stages(c, r) then Marking else Writing, k.marked, k.passed + [result])
  }

  function WithRank(s: State, r: nat, k: Rank): State
    requires r < |s.ranks|
  {
    s.(ranks := s.ranks[r := k])
  }

  /** What a rank may do next. */
  predicate RankEnabled(c: Config, s: State, step: Step, r: nat) {
    && r < |s.ranks|
    && var pc := s.ranks[r].pc;
       match step
       case Mark(_) => pc.Marking?
       case Look(_) => pc.Waiting? && pc.checked < c.n
       case PassWait(_) => pc.Waiting? && pc.checked == c.n
       case TimeOut(_) => pc.Waiting? && pc.checked == 0
       case BeginWrite(_) => pc.Writing? || pc.Failing?
       case EndWrite(_) => pc.InWrite? || pc.InFailWrite?
       case MarkDone(_) => pc.Closing? || pc.FailClosing?
       case Raise(_) => pc.Marking? || pc.Waiting? || pc.Writing? || pc.InWrite? || pc.Closing?
       case _ => false
  }

  function RankStep(c: Config, s: State, step: Step, r: nat): State
    requires RankEnabled(c, s, step, r)
  {
    var k := s.ranks[r];
    match step
    case Mark(_) => WithRank(s, r, k.(pc := Waiting(0), marked := k.marked + 1)).(marks := s.marks + {(k.marked, r)})
    case Look(_) => WithRank(s, r, k.(pc := Waiting(Seen((k.marked - 1, k.pc.checked) in s.marks, k.pc.checked))))
    case PassWait(_) => WithRank(s, r, AfterWait(c, r, k, true))
    case TimeOut(_) => WithRank(s, r, AfterWait(c, r, k, false))
    case BeginWrite(_) =>
      WithRank(s, r, k.(pc := if k.pc.Writing? then InWrite else InFailWrite)).(files := s.files[r := Partial])
    case EndWrite(_) =>
      WithRank(s, r, k.(pc := if k.pc.InWrite? then Closing else FailClosing))
        .(files := s.files[r := Full(if k.pc.InWrite? then Report(false, c.gpu(r)) else Report(true, false))])
    case MarkDone(_) => WithRank(s, r, k.(pc := Ended)).(dones := s.dones + {r})
    case Raise(_) => WithRank(s, r, k.(pc := Failing))
  }

  /** Rank 0 after its own part: wait for every done marker, read what is readable, judge. */
  predicate MainEnabled(c: Config, s: State, step: Step) {
    match step
    case MainStart => s.main.Idle? && |s.ranks| > 0 && s.ranks[0].pc.Ended?
    case MainLook => s.main.WaitingDone? && s.main.checked < c.n
    case MainGoOn => s.main.WaitingDone? && s.main.checked == c.n
    case MainTimeOut => s.main.WaitingDone? && s.main.checked == 0
    case Read => s.main.Reading? && |s.results| < c.n
    case Judge(_) => s.main.Reading? && |s.results| == c.n
    case _ => false
  }

  /** An absent or half-written file does not parse and is left out. */
  function Parsed(s: State, r: nat): File {
    if r in s.files then s.files[r] else Partial
  }

  predicate AnyError(results: seq<File>) {
    exists r :: 0 <= r < |results| && results[r].Full? && results[r].report.error
  }

  predicate AllReadOnGpu(results: seq<File>) {
    forall r :: 0 <= r < |results| && results[r].Full? ==> results[r].report.gpu
  }

  predicate Complete(results: seq<File>) {
    forall r :: 0 <= r < |results| ==> results[r].Full?
  }

  /**
   The certification: not with a broken or missing rank 0, only when every rank that was
   read ran on a GPU and a stamp has a place; a failing verdict removes the stamp, and only
   a complete GPU run writes it.
   */
  function Stamp(c: Config, s: State, v: Verdict): bool {
    if AnyError(s.results) || |s.results| == 0 || s.results[0].Partial? then s.stamped
    else if !AllReadOnGpu(s.results) || !c.kind || !c.line then s.stamped
    else if v == Fail then false
    else if !(Complete(s.results) && !c.cpuOnly) then s.stamped
    else true
  }

  function MainStep(c: Config, s: State, step: Step): State
    requires MainEnabled(c, s, step)
  {
    match step
    case MainStart => s.(main := WaitingDone(0))
    case MainLook => s.(main := WaitingDone(Seen(s.main.checked in s.dones, s.main.checked)))
    case MainGoOn => s.(main := Reading)
    case MainTimeOut => s.(main := Reading)
    case Read => s.(results := s.results + [Parsed(s, |s.results|)])
    case Judge(v) => s.(main := Finished, verdict := v, stamped := Stamp(c, s, v))
  }

  ghost predicate Enabled(c: Config, s: State, step: Step) {
    match step
    case Mark(r) => RankEnabled(c, s, step, r)
    case Look(r) => RankEnabled(c, s, step, r)
    case PassWait(r) => RankEnabled(c, s, step, r)
    case TimeOut(r) => RankEnabled(c, s, step, r)
    case BeginWrite(r) => RankEnabled(c, s, step, r)
    case EndWrite(r) => RankEnabled(c, s, step, r)
    case MarkDone(r) => RankEnabled(c, s, step, r)
    case Raise(r) => RankEnabled(c, s, step, r)
    case _ => MainEnabled(c, s, step)
  }

  ghost function Next(c: Config, s: State, step: Step): State
    requires Enabled(c, s, step)
  {
    if step.MainStart? || step.MainLook? || step.MainGoOn? || step.MainTimeOut? || step.Read? || step.Judge?
    then MainStep(c, s, step) else RankStep(c, s, step, step.r)
  }

  /** The steps can be taken in this order. */
  ghost predicate Interleaving(c: Config, s: State, steps: seq<Step>)
    decreases |steps|
  {
    steps == [] || (Enabled(c, s, steps[0]) && Interleaving(c, Next(c, s, steps[0]), steps[1..]))
  }

  ghost function After(c: Config, s: State, steps: seq<Step>): State
    requires Interleaving(c, s, steps)
    decreases |steps|
  {
    if steps == [] then s else After(c, Next(c, s, steps[0]), steps[1..])
  }

  /** Reachable from a fresh directory. */
  ghost predicate Reachable(c: Config, s: State) {
    exists steps :: Interleaving(c, Init(c), steps) && After(c, Init(c), steps) == s
  }

  // ---------------------------------------------------------------- the invariant

  /** Stage k's markers of the first n ranks are there. */
  ghost predicate MarkedUpTo(s: State, k: nat, n: nat) {
    forall q: nat :: q < n ==> (k, q) in s.marks
  }

  ghost predicate AllMarked(c: Config, s: State, k: nat) {
    MarkedUpTo(s, k, c.n)
  }

  ghost predicate RankInv(c: Config, s: State, r: nat)
    requires r < |s.ranks|
  {
    var k := s.ranks[r];
    && |k.passed| <= k.marked <= Stages(c, r) && k.marked <= |k.passed| + 1
    && (k.pc.Marking? ==> k.marked == |k.passed| < Stages(c, r))
    && (k.pc.Waiting? ==> k.marked == |k.passed| + 1)
    && (k.pc.Waiting? ==> k.pc.checked <= c.n && MarkedUpTo(s, |k.passed|, k.pc.checked))
    && (k.pc.Writing? || k.pc.InWrite? || k.pc.Closing? ==> k.marked == |k.passed| == Stages(c, r))
    && (forall j :: 0 <= j < |k.passed| && k.passed[j] ==> AllMarked(c, s, j))
    && (forall j: nat :: (j, r) in s.marks <==> j < k.marked)
  }

  ghost predicate FileInv(c: Config, s: State, r: nat)
    requires r < |s.ranks|
  {
    var k := s.ranks[r];
    && (r in s.dones <==> k.pc.Ended?)
    && (k.pc.Closing? || k.pc.FailClosing? || k.pc.Ended? ==> r in s.files && s.files[r].Full?)
    && (r in s.files ==> Sound(c, s, r, s.files[r]))
  }

  /** A complete report without an error comes from a rank that ran its whole program. */
  ghost predicate Sound(c: Config, s: State, r: nat, f: File)
    requires r < |s.ranks|
  {
    f.Full? && !f.report.error ==> f.report.gpu == c.gpu(r) && s.ranks[r].marked == Stages(c, r)
  }

  ghost predicate MainInv(c: Config, s: State)
    requires |s.ranks| == c.n
  {
    && |s.results| <= c.n
    && (forall r :: 0 <= r < |s.results| ==> Sound(c, s, r, s.results[r]))
    && (s.main.WaitingDone? ==> s.main.checked <= c.n && forall q :: 0 <= q < s.main.checked ==> q in s.dones)
    && (s.stamped ==>
          && s.main.Finished? && s.verdict != Fail && |s.results| == c.n > 0
          && Complete(s.results) && !AnyError(s.results) && AllReadOnGpu(s.results) && !c.cpuOnly)
    && (s.stamped ==> s.main.Finished?)
  }

  ghost predicate Inv(c: Config, s: State) {
    && |s.ranks| == c.n
    && (forall r :: 0 <= r < c.n ==> RankInv(c, s, r) && FileInv(c, s, r))
    && MainInv(c, s)
  }

  lemma InitInv(c: Config)
    ensures Inv(c, Init(c))
  {
  }

  /** Marks and finished programs stay, so what other ranks know stays true. */
  lemma OtherRankKeeps(c: Config, s: State, t: State, r: nat, q: nat)
    requires |s.ranks| == |t.ranks| == c.n && r < c.n && q < c.n && q != r
    requires RankInv(c, s, q) && FileInv(c, s, q) && t.ranks[q] == s.ranks[q]
    requires s.marks <= t.marks && forall m :: m in t.marks - s.marks ==> m.1 == r
    requires q in t.dones <==> q in s.dones
    requires (q in t.files <==> q in s.files) && (q in s.files ==> t.files[q] == s.files[q])
    ensures RankInv(c, t, q) && FileInv(c, t, q)
  {
    forall j | 0 <= j < |t.ranks[q].passed| && t.ranks[q].passed[j]
      ensures AllMarked(c, t, j)
    {
      assert AllMarked(c, s, j);
    }
    forall j: nat
      ensures (j, q) in t.marks <==> j < t.ranks[q].marked
    {
      assert (j, q) in t.marks <==> (j, q) in s.marks;
    }
  }

  lemma OwnRankKeeps(c: Config, s: State, step: Step, r: nat)
    requires Inv(c, s) && RankEnabled(c, s, step, r)
    ensures var t := RankStep(c, s, step, r); |t.ranks| == c.n && RankInv(c, t, r) && FileInv(c, t, r)
  {
    var t := RankStep(c, s, step, r);
    var k, k' := s.ranks[r], t.ranks[r];
    assert RankInv(c, s, r) && FileInv(c, s, r);
    forall j | 0 <= j < |k'.passed| && k'.passed[j]
      ensures AllMarked(c, t, j)
    {
      if j < |k.passed| {
        assert AllMarked(c, s, j);
      }
    }
  }

  lemma RankStepInv(c: Config, s: State, step: Step, r: nat)
    requires Inv(c, s) && RankEnabled(c, s, step, r)
    ensures Inv(c, RankStep(c, s, step, r))
  {
    var t := RankStep(c, s, step, r);
    OwnRankKeeps(c, s, step, r);
    hide RankInv, FileInv, RankEnabled;
    forall q | 0 <= q < c.n && q != r
      ensures RankInv(c, t, q) && FileInv(c, t, q)
    {
      OtherRankKeeps(c, s, t, r, q);
    }
    MarkedStays(c, s, step, r);
  }

  /** A rank that has marked all its stages never marks again. */
  lemma MarkedStays(c: Config, s: State, step: Step, r: nat)
    requires Inv(c, s) && RankEnabled(c, s, step, r)
    ensures s.ranks[r].marked == Stages(c, r) ==> RankStep(c, s, step, r).ranks[r].marked == Stages(c, r)
  {
    assert RankInv(c, s, r);
  }

  lemma MainStepInv(c: Config, s: State, step: Step)
    requires Inv(c, s) && MainEnabled(c, s, step)
    ensures Inv(c, MainStep(c, s, step))
  {
    var t := MainStep(c, s, step);
    forall q | 0 <= q < c.n
      ensures RankInv(c, t, q) && FileInv(c, t, q)
    {
      assert RankInv(c, s, q) && FileInv(c, s, q);
      forall j | 0 <= j < |t.ranks[q].passed| && t.ranks[q].passed[j]
        ensures AllMarked(c, t, j)
      {
        assert AllMarked(c, s, j);
      }
    }
    if step.Read? {
      assert FileInv(c, s, |s.results|);
    }
  }

  lemma StepInv(c: Config, s: State, step: Step)
    requires Inv(c, s) && Enabled(c, s, step)
    ensures Inv(c, Next(c, s, step))
  {
    hide Inv;
    if step.MainStart? || step.MainLook? || step.MainGoOn? || step.MainTimeOut? || step.Read? || step.Judge? {
      MainStepInv(c, s, step);
    } else {
      RankStepInv(c, s, step, step.r);
    }
  }

  /** Every interleaving keeps the invariant. */
  lemma {:induction false} InterleavingInv(c: Config, s: State, steps: seq<Step>)
    requires Inv(c, s) && Interleaving(c, s, steps)
    ensures Inv(c, After(c, s, steps))
    decreases |steps|
  {
    hide Inv, Enabled, Next;
    if steps != [] {
      StepInv(c, s, steps[0]);
      InterleavingInv(c, Next(c, s, steps[0]), steps[1..]);
    }
  }

  lemma ReachableInv(c: Config, s: State)
    requires Reachable(c, s)
    ensures Inv(c, s)
  {
    var steps :| Interleaving(c, Init(c), steps) && After(c, Init(c), steps) == s;
    InitInv(c);
    InterleavingInv(c, Init(c), steps);
  }

  // ---------------------------------------------------------------- what it gives

  /** A wait that returned true means every rank marked that stage. */
  lemma PassedMeansAllMarked(c: Config, s: State, r: nat, k: nat, q: nat)
    requires Reachable(c, s) && r < c.n && q < c.n
    requires r < |s.ranks| && k < |s.ranks[r].passed| && s.ranks[r].passed[k]
    ensures q < |s.ranks| && s.ranks[q].marked > k
  {
    hide Reachable, Interleaving, MainInv;
    ReachableInv(c, s);
    assert RankInv(c, s, r) && RankInv(c, s, q);
    assert AllMarked(c, s, k);
    assert (k, q) in s.marks;
  }

  ghost predicate AllWaitsPassed(s: State, r: nat)
    requires r < |s.ranks|
  {
    forall j :: 0 <= j < |s.ranks[r].passed| ==> s.ranks[r].passed[j]
  }

  /** A rank whose waits all succeeded is at most one stage ahead of any other rank. */
  lemma AtMostOneStageAhead(c: Config, s: State, a: nat, b: nat)
    requires Reachable(c, s) && a < c.n && b < c.n
    requires |s.ranks| == c.n && AllWaitsPassed(s, a)
    ensures s.ranks[a].marked <= s.ranks[b].marked + 1
  {
    hide Reachable, Interleaving, MainInv;
    ReachableInv(c, s);
    assert RankInv(c, s, a);
    if s.ranks[a].marked > 1 {
      PassedMeansAllMarked(c, s, a, s.ranks[a].marked - 2, b);
    }
  }

  /** Ranks on different branches never pass the GPU stage together. */
  lemma MixedBranchesNeverPassCold(c: Config, s: State, a: nat, b: nat)
    requires Reachable(c, s) && a < c.n && b < c.n && !c.gpu(b)
    requires |s.ranks| == c.n && |s.ranks[a].passed| == 5
    ensures !s.ranks[a].passed[4]
  {
    hide Reachable, Interleaving, MainInv;
    ReachableInv(c, s);
    assert RankInv(c, s, b);
    if s.ranks[a].passed[4] {
      PassedMeansAllMarked(c, s, a, 4, b);
    }
  }

  /** A done marker means that rank's result file is complete. */
  lemma DoneMeansWritten(c: Config, s: State, r: nat)
    requires Reachable(c, s) && r < c.n && r in s.dones
    ensures r in s.files && s.files[r].Full?
  {
    hide Reachable, Interleaving, MainInv, RankInv;
    ReachableInv(c, s);
    assert FileInv(c, s, r);
  }

  /**
   A stamp means the verdict did not fail and every rank's file was read, without an error,
   from a GPU rank that had marked all of its stages.
   */
  lemma StampMeansEveryRankFinished(c: Config, s: State, r: nat)
    requires Reachable(c, s) && s.stamped && r < c.n
    ensures s.verdict != Fail && !c.cpuOnly && |s.results| == c.n == |s.ranks|
    ensures s.results[r].Full? && !s.results[r].report.error && s.results[r].report.gpu
    ensures c.gpu(r) && s.ranks[r].marked == 5
  {
    hide Reachable, Interleaving, RankInv, FileInv;
    ReachableInv(c, s);
    assert Sound(c, s, r, s.results[r]);
  }

  /** The stamp is never written while a rank has not finished its program. */
  lemma NoStampBeforeTheLastRank(c: Config, s: State, r: nat)
    requires Reachable(c, s) && r < c.n && |s.ranks| == c.n && s.ranks[r].marked < Stages(c, r)
    ensures !s.stamped
  {
    if s.stamped {
      StampMeansEveryRankFinished(c, s, r);
    }
  }

  /**
   Judging leaves a stamp exactly when the verdict does not fail, a stamp has a place, the run is not
   CPU only and every rank's file was read, without an error and from a GPU.
   */
  lemma JudgingStampsIff(c: Config, s: State, v: Verdict)
    requires Reachable(c, s) && Enabled(c, s, Judge(v))
    ensures Next(c, s, Judge(v)).stamped <==>
      v != Fail && c.kind && c.line && !c.cpuOnly && |s.results| == c.n > 0
      && forall r :: 0 <= r < |s.results| ==> s.results[r] == Full(Report(false, true))
  {
    hide Reachable, RankInv, FileInv;
    ReachableInv(c, s);
    assert !s.stamped;
    if forall r :: 0 <= r < |s.results| ==> s.results[r] == Full(Report(false, true)) {
      assert !AnyError(s.results);
    }
    forall r | 0 <= r < |s.results| && s.results[r].Full? && !AnyError(s.results) && AllReadOnGpu(s.results)
      ensures s.results[r] == Full(Report(false, true))
    {
      assert !s.results[r].report.error && s.results[r].report.gpu;
    }
  }
}
