/**
 The ranks can get there: an all-GPU check with a place for a stamp has an interleaving in which
 every wait succeeds and the stamp is written.
 */
module RankProgress {
  import opened RankBarrier
  import opened Sequences

  /** Some interleaving leads from s to t. */
  ghost predicate Leads(c: Config, s: State, t: State) {
    exists steps :: Interleaving(c, s, steps) && After(c, s, steps) == t
  }

  lemma {:induction false} InterleavingAppend(c: Config, s: State, a: seq<Step>, b: seq<Step>)
    requires Interleaving(c, s, a) && Interleaving(c, After(c, s, a), b)
    ensures Interleaving(c, s, a + b) && After(c, s, a + b) == After(c, After(c, s, a), b)
    decreases |a|
  {
    hide Enabled, Next;
    if a == [] {
      assert a + b == b;
    } else {
      assert (a + b)[1..] == a[1..] + b && (a + b)[0] == a[0];
      InterleavingAppend(c, Next(c, s, a[0]), a[1..], b);
    }
  }

  lemma LeadsSelf(c: Config, s: State)
    ensures Leads(c, s, s)
  {
    assert Interleaving(c, s, []) && After(c, s, []) == s;
  }

  lemma LeadsThen(c: Config, s: State, t: State, u: State)
    requires Leads(c, s, t) && Leads(c, t, u)
    ensures Leads(c, s, u)
  {
    hide Interleaving, After;
    var a :| Interleaving(c, s, a) && After(c, s, a) == t;
    var b :| Interleaving(c, t, b) && After(c, t, b) == u;
    InterleavingAppend(c, s, a, b);
  }

  lemma LeadsStep(c: Config, s: State, step: Step)
    requires Enabled(c, s, step)
    ensures Leads(c, s, Next(c, s, step))
  {
    hide Enabled, Next;
    var t := Next(c, s, step);
    assert [step][1..] == [];
    assert Interleaving(c, t, []) && After(c, t, []) == t;
    assert Interleaving(c, s, [step]) && After(c, s, [step]) == t;
  }

  // ---------------------------------------------------------------- the states on the way

  /** The first i ranks are done with a phase, the others still have it before them. */
  function Sweep(n: nat, i: nat, done: Rank, todo: Rank): (ranks: seq<Rank>)
    ensures |ranks| == n
  {
    seq(n, r => if r < i then done else todo)
  }

  function Marks(n: nat, k: nat, i: nat): set<(nat, nat)> {
    set j, r | 0 <= j <= k && 0 <= r < n && (j < k || r < i) :: (j, r)
  }

  function Trues(k: nat): seq<bool> { seq(k, _ => true) }

  ghost function InBarrier(c: Config, i: nat, done: Rank, todo: Rank, k: nat, m: nat): State {
    State(Sweep(c.n, i, done, todo), Marks(c.n, k, m), {}, map[], Idle, [], Pass, false)
  }

  function Unmarked(k: nat): Rank { Rank(Marking, k, Trues(k)) }

  function InWait(k: nat, checked: nat): Rank { Rank(Waiting(checked), k + 1, Trues(k)) }

  function Passed(k: nat): Rank { Rank(if k + 1 < 5 then Marking else Writing, k + 1, Trues(k + 1)) }

  lemma SweepNext(n: nat, i: nat, done: Rank, todo: Rank)
    requires i < n
    ensures Sweep(n, i, done, todo)[i := done] == Sweep(n, i + 1, done, todo) && Sweep(n, i, done, todo)[i] == todo
  {
  }

  lemma SweepEnds(n: nat, a: Rank, b: Rank, d: Rank)
    ensures Sweep(n, n, a, b) == Sweep(n, 0, d, a)
  {
  }

  // ---------------------------------------------------------------- one stage

  ghost predicate AllGpu(c: Config) { forall r: nat :: r < c.n ==> c.gpu(r) }

  lemma {:induction false} MarkingPhase(c: Config, k: nat, i: nat)
    requires i <= c.n && k < 5
    ensures Leads(c, InBarrier(c, i, InWait(k, 0), Unmarked(k), k, i), InBarrier(c, c.n, InWait(k, 0), Unmarked(k), k, c.n))
    decreases c.n - i
  {
    hide Leads;
    var s := InBarrier(c, i, InWait(k, 0), Unmarked(k), k, i);
    if i == c.n {
      LeadsSelf(c, s);
    } else {
      var t := InBarrier(c, i + 1, InWait(k, 0), Unmarked(k), k, i + 1);
      SweepNext(c.n, i, InWait(k, 0), Unmarked(k));
      assert Marks(c.n, k, i) + {(k, i)} == Marks(c.n, k, i + 1);
      assert Next(c, s, Mark(i)) == t;
      LeadsStep(c, s, Mark(i));
      MarkingPhase(c, k, i + 1);
      LeadsThen(c, s, t, InBarrier(c, c.n, InWait(k, 0), Unmarked(k), k, c.n));
    }
  }

  /** Rank i, having seen `checked` markers, sees the rest. */
  lemma {:induction false} LookingOn(c: Config, k: nat, i: nat, checked: nat)
    requires i < c.n && k < 5 && checked <= c.n
    ensures var s := InBarrier(c, i, Passed(k), InWait(k, 0), k, c.n);
      Leads(c, WithRank(s, i, InWait(k, checked)), WithRank(s, i, InWait(k, c.n)))
    decreases c.n - checked
  {
    hide Leads;
    var s := InBarrier(c, i, Passed(k), InWait(k, 0), k, c.n);
    var a, z := WithRank(s, i, InWait(k, checked)), WithRank(s, i, InWait(k, c.n));
    if checked == c.n {
      LeadsSelf(c, a);
    } else {
      var b := WithRank(s, i, InWait(k, checked + 1));
      assert (k, checked) in a.marks;
      assert Next(c, a, Look(i)) == b;
      LeadsStep(c, a, Look(i));
      LookingOn(c, k, i, checked + 1);
      LeadsThen(c, a, b, z);
    }
  }

  lemma {:induction false} WaitingPhase(c: Config, k: nat, i: nat)
    requires i <= c.n && k < 5 && AllGpu(c)
    ensures Leads(c, InBarrier(c, i, Passed(k), InWait(k, 0), k, c.n), InBarrier(c, c.n, Passed(k), InWait(k, 0), k, c.n))
    decreases c.n - i
  {
    hide Leads;
    var s, z := InBarrier(c, i, Passed(k), InWait(k, 0), k, c.n), InBarrier(c, c.n, Passed(k), InWait(k, 0), k, c.n);
    if i == c.n {
      LeadsSelf(c, s);
    } else {
      var a := WithRank(s, i, InWait(k, c.n));
      var t := InBarrier(c, i + 1, Passed(k), InWait(k, 0), k, c.n);
      SweepNext(c.n, i, Passed(k), InWait(k, 0));
      assert WithRank(s, i, InWait(k, 0)) == s;
      LookingOn(c, k, i, 0);
      assert Trues(k) + [true] == Trues(k + 1);
      assert Next(c, a, PassWait(i)) == t;
      LeadsStep(c, a, PassWait(i));
      LeadsThen(c, s, a, t);
      WaitingPhase(c, k, i + 1);
      LeadsThen(c, s, t, z);
    }
  }

  /** All ranks about to mark stage k, and all of them past it. */
  lemma OneStage(c: Config, k: nat)
    requires k < 5 && AllGpu(c)
    ensures Leads(c, InBarrier(c, 0, InWait(k, 0), Unmarked(k), k, 0), InBarrier(c, c.n, Passed(k), InWait(k, 0), k, c.n))
  {
    hide Leads;
    var s, t := InBarrier(c, 0, InWait(k, 0), Unmarked(k), k, 0), InBarrier(c, c.n, InWait(k, 0), Unmarked(k), k, c.n);
    var t', u := InBarrier(c, 0, Passed(k), InWait(k, 0), k, c.n), InBarrier(c, c.n, Passed(k), InWait(k, 0), k, c.n);
    MarkingPhase(c, k, 0);
    SweepEnds(c.n, InWait(k, 0), Unmarked(k), Passed(k));
    assert t == t';
    WaitingPhase(c, k, 0);
    LeadsThen(c, s, t, u);
  }

  lemma {:induction false} AllStages(c: Config, k: nat)
    requires k < 5 && AllGpu(c)
    ensures Leads(c, Init(c), InBarrier(c, c.n, Passed(k), InWait(k, 0), k, c.n))
  {
    hide Leads;
    var s, t := InBarrier(c, 0, InWait(k, 0), Unmarked(k), k, 0), InBarrier(c, c.n, Passed(k), InWait(k, 0), k, c.n);
    OneStage(c, k);
    if k == 0 {
      assert Init(c) == s by {
        assert Trues(0) == [];
        assert Marks(c.n, 0, 0) == {};
      }
    } else {
      AllStages(c, k - 1);
      SweepEnds(c.n, Passed(k - 1), InWait(k - 1, 0), InWait(k, 0));
      assert Marks(c.n, k - 1, c.n) == Marks(c.n, k, 0);
      assert InBarrier(c, c.n, Passed(k - 1), InWait(k - 1, 0), k - 1, c.n) == s;
      LeadsThen(c, Init(c), s, t);
    }
  }

  // ---------------------------------------------------------------- results and certification

  const GOOD := Full(Report(false, true))

  function Ending(): Rank { Rank(Ended, 5, Trues(5)) }

  /** The first i ranks have written their files. */
  ghost function Written(c: Config, i: nat, main: Main, results: nat): State {
    State(Sweep(c.n, i, Ending(), Passed(4)), Marks(c.n, 4, c.n), Range(i), map r | r in Range(i) :: GOOD, main,
          seq(results, _ => GOOD), Pass, false)
  }

  /** Rank i at its file, with `file` written so far. */
  ghost function AtFile(c: Config, i: nat, pc: Pc, file: File): State
    requires i < c.n
  {
    var s := Written(c, i, Idle, 0);
    WithRank(s, i, Passed(4).(pc := pc)).(files := s.files[i := file])
  }

  lemma OpensFile(c: Config, i: nat)
    requires i < c.n
    ensures Leads(c, Written(c, i, Idle, 0), AtFile(c, i, InWrite, Partial))
  {
    var s := Written(c, i, Idle, 0);
    assert s.ranks[i] == Passed(4);
    assert Next(c, s, BeginWrite(i)) == AtFile(c, i, InWrite, Partial);
    LeadsStep(c, s, BeginWrite(i));
  }

  lemma FillsFile(c: Config, i: nat)
    requires i < c.n && AllGpu(c)
    ensures Leads(c, AtFile(c, i, InWrite, Partial), AtFile(c, i, Closing, GOOD))
  {
    hide Leads, Written;
    var a, b := AtFile(c, i, InWrite, Partial), AtFile(c, i, Closing, GOOD);
    WrittenRanks(c, i);
    assert Next(c, a, EndWrite(i)) == b by {
      assert a.ranks[i].pc == InWrite && c.gpu(i);
      assert a.files[i := GOOD] == b.files;
      assert a.ranks[i := Passed(4).(pc := Closing)] == b.ranks;
    }
    LeadsStep(c, a, EndWrite(i));
  }

  lemma WrittenRanks(c: Config, i: nat)
    ensures |Written(c, i, Idle, 0).ranks| == c.n
  {
  }

  lemma ClosesFile(c: Config, i: nat)
    requires i < c.n
    ensures Leads(c, AtFile(c, i, Closing, GOOD), Written(c, i + 1, Idle, 0))
  {
    hide Leads;
    var s, b, t := Written(c, i, Idle, 0), AtFile(c, i, Closing, GOOD), Written(c, i + 1, Idle, 0);
    SweepNext(c.n, i, Ending(), Passed(4));
    assert b.ranks[i := Ending()] == s.ranks[i := Ending()] == t.ranks;
    assert b.files == t.files;
    assert b.dones + {i} == t.dones;
    assert Next(c, b, MarkDone(i)) == t;
    LeadsStep(c, b, MarkDone(i));
  }

  lemma WritesFile(c: Config, i: nat)
    requires i < c.n && AllGpu(c)
    ensures Leads(c, Written(c, i, Idle, 0), Written(c, i + 1, Idle, 0))
  {
    hide Leads, Written, AtFile;
    OpensFile(c, i);
    FillsFile(c, i);
    ClosesFile(c, i);
    LeadsThen(c, Written(c, i, Idle, 0), AtFile(c, i, InWrite, Partial), AtFile(c, i, Closing, GOOD));
    LeadsThen(c, Written(c, i, Idle, 0), AtFile(c, i, Closing, GOOD), Written(c, i + 1, Idle, 0));
  }

  lemma {:induction false} WritingPhase(c: Config, i: nat)
    requires i <= c.n && AllGpu(c)
    ensures Leads(c, Written(c, i, Idle, 0), Written(c, c.n, Idle, 0))
    decreases c.n - i
  {
    hide Leads, Written;
    if i == c.n {
      LeadsSelf(c, Written(c, i, Idle, 0));
    } else {
      WritesFile(c, i);
      WritingPhase(c, i + 1);
      LeadsThen(c, Written(c, i, Idle, 0), Written(c, i + 1, Idle, 0), Written(c, c.n, Idle, 0));
    }
  }

  lemma {:induction false} CollectingPhase(c: Config, checked: nat)
    requires checked <= c.n
    ensures Leads(c, Written(c, c.n, WaitingDone(checked), 0), Written(c, c.n, WaitingDone(c.n), 0))
    decreases c.n - checked
  {
    hide Leads;
    var s, z := Written(c, c.n, WaitingDone(checked), 0), Written(c, c.n, WaitingDone(c.n), 0);
    if checked == c.n {
      LeadsSelf(c, s);
    } else {
      var t := Written(c, c.n, WaitingDone(checked + 1), 0);
      assert Next(c, s, MainLook) == t;
      LeadsStep(c, s, MainLook);
      CollectingPhase(c, checked + 1);
      LeadsThen(c, s, t, z);
    }
  }

  lemma {:induction false} ReadingPhase(c: Config, read: nat)
    requires read <= c.n
    ensures Leads(c, Written(c, c.n, Reading, read), Written(c, c.n, Reading, c.n))
    decreases c.n - read
  {
    hide Leads;
    var s, z := Written(c, c.n, Reading, read), Written(c, c.n, Reading, c.n);
    if read == c.n {
      LeadsSelf(c, s);
    } else {
      var t := Written(c, c.n, Reading, read + 1);
      assert s.results + [GOOD] == t.results;
      assert Next(c, s, Read) == t;
      LeadsStep(c, s, Read);
      ReadingPhase(c, read + 1);
      LeadsThen(c, s, t, z);
    }
  }

  /** From the last result on: rank 0 collects and reads everything. */
  lemma Collected(c: Config)
    requires c.n > 0
    ensures Leads(c, Written(c, c.n, Idle, 0), Written(c, c.n, Reading, c.n))
  {
    var s, a := Written(c, c.n, Idle, 0), Written(c, c.n, WaitingDone(0), 0);
    var b, t := Written(c, c.n, WaitingDone(c.n), 0), Written(c, c.n, Reading, 0);
    assert s.ranks[0] == Ending();
    assert Next(c, s, MainStart) == a && Next(c, b, MainGoOn) == t;
    LeadsStep(c, s, MainStart);
    LeadsStep(c, b, MainGoOn);
    hide *;
    CollectingPhase(c, 0);
    ReadingPhase(c, 0);
    LeadsThen(c, s, a, b);
    LeadsThen(c, s, b, t);
    LeadsThen(c, s, t, Written(c, c.n, Reading, c.n));
  }

  lemma BarrierIsWritten(c: Config)
    ensures InBarrier(c, c.n, Passed(4), InWait(4, 0), 4, c.n) == Written(c, 0, Idle, 0)
  {
    SweepEnds(c.n, Passed(4), InWait(4, 0), Ending());
    assert Range(0) == {};
    assert (map r | r in Range(0) :: GOOD) == map[];
  }

  /** The last state: everything read, judged and stamped. */
  ghost function Certified(c: Config): State {
    Written(c, c.n, Reading, c.n).(main := Finished, verdict := Pass, stamped := true)
  }

  lemma PassIsStamped(c: Config)
    requires c.n > 0 && c.kind && c.line && !c.cpuOnly
    ensures Leads(c, Written(c, c.n, Reading, c.n), Certified(c))
  {
    var s := Written(c, c.n, Reading, c.n);
    assert s.results[0] == GOOD && !AnyError(s.results);
    assert Next(c, s, Judge(Pass)) == Certified(c);
    hide *;
    LeadsStep(c, s, Judge(Pass));
  }

  /**
   An all-GPU check of at least one rank whose stamp has a place can reach the stamp, with every
   rank through all five barriers on a wait that returned true.
   */
  lemma StampCanBeReached(c: Config)
    requires c.n > 0 && AllGpu(c) && c.kind && c.line && !c.cpuOnly
    ensures exists s :: Reachable(c, s) && s.stamped && |s.ranks| == c.n
                        && forall r :: 0 <= r < c.n ==> |s.ranks[r].passed| == 5 && AllWaitsPassed(s, r)
  {
    hide Leads, Written, InBarrier;
    AllStages(c, 4);
    BarrierIsWritten(c);
    WritingPhase(c, 0);
    Collected(c);
    PassIsStamped(c);
    LeadsThen(c, Init(c), Written(c, 0, Idle, 0), Written(c, c.n, Idle, 0));
    LeadsThen(c, Init(c), Written(c, c.n, Idle, 0), Written(c, c.n, Reading, c.n));
    LeadsThen(c, Init(c), Written(c, c.n, Reading, c.n), Certified(c));
    LeadsIsReachable(c, Certified(c));
    CertifiedIs(c);
  }

  lemma LeadsIsReachable(c: Config, s: State)
    requires Leads(c, Init(c), s)
    ensures Reachable(c, s)
  {
  }

  lemma CertifiedIs(c: Config)
    ensures var s := Certified(c);
      s.stamped && |s.ranks| == c.n && forall r :: 0 <= r < c.n ==> |s.ranks[r].passed| == 5 && AllWaitsPassed(s, r)
  {
  }
}
