/**
 Nobody waits for ever: a rank ends its wait by its own steps whatever the others do, rank 0
 comes to its verdict by its own, and every run can be brought to its end without an exception.
 */
module RankEnding {
  import opened RankBarrier
  import opened RankProgress

  /** Whose steps a stretch of an interleaving consists of; nobody raises an exception. */
  datatype Actor = OneRank(r: nat) | Root | Anyone

  predicate May(a: Actor, step: Step) {
    var ofRank := step.Mark? || step.Look? || step.PassWait? || step.TimeOut?
                  || step.BeginWrite? || step.EndWrite? || step.MarkDone?;
    match a
    case OneRank(r) => ofRank && step.r == r
    case Root => !ofRank && !step.Raise?
    case Anyone => !step.Raise?
  }

  /** Steps of the actor lead from s to t. */
  ghost predicate LeadsBy(c: Config, a: Actor, s: State, t: State) {
    exists steps :: Interleaving(c, s, steps) && After(c, s, steps) == t && forall i :: 0 <= i < |steps| ==> May(a, steps[i])
  }

  lemma BySelf(c: Config, a: Actor, s: State)
    ensures LeadsBy(c, a, s, s)
  {
    assert Interleaving(c, s, []) && After(c, s, []) == s;
  }

  lemma ByThen(c: Config, a: Actor, s: State, t: State, u: State)
    requires LeadsBy(c, a, s, t) && LeadsBy(c, a, t, u)
    ensures LeadsBy(c, a, s, u)
  {
    hide Interleaving, After, May;
    var x :| Interleaving(c, s, x) && After(c, s, x) == t && forall i :: 0 <= i < |x| ==> May(a, x[i]);
    var y :| Interleaving(c, t, y) && After(c, t, y) == u && forall i :: 0 <= i < |y| ==> May(a, y[i]);
    InterleavingAppend(c, s, x, y);
  }

  lemma ByStep(c: Config, a: Actor, s: State, step: Step)
    requires Enabled(c, s, step) && May(a, step)
    ensures LeadsBy(c, a, s, Next(c, s, step))
  {
    hide Enabled, Next, May;
    var t := Next(c, s, step);
    assert [step][1..] == [];
    assert Interleaving(c, t, []) && After(c, t, []) == t;
    assert Interleaving(c, s, [step]) && After(c, s, [step]) == t;
  }

  lemma ByAnyone(c: Config, a: Actor, s: State, t: State)
    requires LeadsBy(c, a, s, t)
    ensures LeadsBy(c, Anyone, s, t)
  {
    var x :| Interleaving(c, s, x) && After(c, s, x) == t && forall i :: 0 <= i < |x| ==> May(a, x[i]);
    hide Interleaving, After;
    assert forall i :: 0 <= i < |x| ==> May(Anyone, x[i]);
  }

  // ---------------------------------------------------------------- one rank

  /** Only rank r's part of the state may differ. */
  ghost predicate OnlyRank(s: State, t: State, r: nat) {
    && t.main == s.main && t.results == s.results && t.stamped == s.stamped && |t.ranks| == |s.ranks|
    && forall q :: 0 <= q < |s.ranks| && q != r ==> t.ranks[q] == s.ranks[q]
  }

  lemma RankTakes(c: Config, s: State, step: Step, r: nat)
    requires Inv(c, s) && r < c.n && Enabled(c, s, step) && May(OneRank(r), step)
    ensures var t := Next(c, s, step); Inv(c, t) && OnlyRank(s, t, r) && LeadsBy(c, OneRank(r), s, t)
  {
    StepInv(c, s, step);
    ByStep(c, OneRank(r), s, step);
    hide Inv, LeadsBy;
  }

  /**
   A waiting rank left alone ends its wait, after which it remembers whether every rank had marked
   the stage.
   */
  lemma {:induction false} WaitEnds(c: Config, s: State, r: nat) returns (t: State)
    requires Inv(c, s) && r < c.n && s.ranks[r].pc.Waiting?
    ensures LeadsBy(c, OneRank(r), s, t) && Inv(c, t) && OnlyRank(s, t, r) && r < |s.ranks|
    ensures t.ranks[r].passed == s.ranks[r].passed + [AllMarked(c, s, |s.ranks[r].passed|)]
    ensures !t.ranks[r].pc.Waiting?
    decreases c.n - s.ranks[r].pc.checked
  {
    hide LeadsBy, FileInv, MainInv;
    var k := s.ranks[r];
    assert RankInv(c, s, r);
    if k.pc.checked == c.n {
      t := Next(c, s, PassWait(r));
      RankTakes(c, s, PassWait(r), r);
    } else {
      var u := Next(c, s, Look(r));
      RankTakes(c, s, Look(r), r);
      if (k.marked - 1, k.pc.checked) in s.marks {
        t := WaitEnds(c, u, r);
        SameMarks(c, s, u, |k.passed|);
      } else {
        t := Next(c, u, TimeOut(r));
        RankTakes(c, u, TimeOut(r), r);
        assert !MarkedUpTo(s, |k.passed|, c.n);
      }
      ByThen(c, OneRank(r), s, u, t);
    }
  }

  lemma SameMarks(c: Config, s: State, t: State, k: nat)
    requires s.marks == t.marks
    ensures AllMarked(c, s, k) <==> AllMarked(c, t, k)
  {
  }

  /** How far a rank is from its end: stages left, then the place in the program. */
  function Place(pc: Pc): nat {
    match pc
    case Ended => 0
    case Waiting(_) => 0
    case Marking => 1
    case Closing => 2
    case InWrite => 3
    case Writing => 4
    case FailClosing => 5
    case InFailWrite => 6
    case Failing => 7
  }

  /** A rank left alone ends its program, without an exception of its own. */
  lemma {:induction false} RankEnds(c: Config, s: State, r: nat) returns (t: State)
    requires Inv(c, s) && r < c.n
    ensures LeadsBy(c, OneRank(r), s, t) && Inv(c, t) && OnlyRank(s, t, r) && r < |t.ranks| && t.ranks[r].pc.Ended?
    decreases Stages(c, r) - |s.ranks[r].passed|, Place(s.ranks[r].pc)
  {
    hide LeadsBy, FileInv, MainInv;
    var k := s.ranks[r];
    assert RankInv(c, s, r);
    if k.pc.Ended? {
      t := s;
      BySelf(c, OneRank(r), s);
    } else {
      var u := RankGoesOn(c, s, r);
      assert RankInv(c, u, r);
      t := RankEnds(c, u, r);
      ByThen(c, OneRank(r), s, u, t);
    }
  }

  lemma RankGoesOn(c: Config, s: State, r: nat) returns (u: State)
    requires Inv(c, s) && r < c.n && !s.ranks[r].pc.Ended?
    ensures LeadsBy(c, OneRank(r), s, u) && Inv(c, u) && OnlyRank(s, u, r) && r < |s.ranks|
    ensures |u.ranks[r].passed| > |s.ranks[r].passed|
      || (u.ranks[r].passed == s.ranks[r].passed && Place(u.ranks[r].pc) < Place(s.ranks[r].pc))
  {
    hide LeadsBy, FileInv, MainInv, RankInv;
    var pc := s.ranks[r].pc;
    if pc.Waiting? {
      u := WaitEnds(c, s, r);
    } else {
      var step := if pc.Marking? then Mark(r)
                  else if pc.Writing? || pc.Failing? then BeginWrite(r)
                  else if pc.InWrite? || pc.InFailWrite? then EndWrite(r) else MarkDone(r);
      u := Next(c, s, step);
      RankTakes(c, s, step, r);
    }
  }

  // ---------------------------------------------------------------- rank 0

  /** Only rank 0's collecting differs. */
  ghost predicate OnlyRoot(s: State, t: State) { t.ranks == s.ranks }

  lemma RootTakes(c: Config, s: State, step: Step)
    requires Inv(c, s) && MainEnabled(c, s, step)
    ensures var t := Next(c, s, step); Inv(c, t) && OnlyRoot(s, t) && LeadsBy(c, Root, s, t)
  {
    StepInv(c, s, step);
    ByStep(c, Root, s, step);
    hide Inv, LeadsBy;
  }

  lemma {:induction false} CollectingEnds(c: Config, s: State) returns (t: State)
    requires Inv(c, s) && s.main.WaitingDone?
    ensures LeadsBy(c, Root, s, t) && Inv(c, t) && OnlyRoot(s, t) && t.main.Reading? && t.results == s.results
    decreases c.n - s.main.checked
  {
    hide LeadsBy, RankInv, FileInv;
    assert s.main.checked <= c.n;
    if s.main.checked == c.n {
      t := Next(c, s, MainGoOn);
      RootTakes(c, s, MainGoOn);
    } else {
      var u := Next(c, s, MainLook);
      RootTakes(c, s, MainLook);
      if s.main.checked in s.dones {
        t := CollectingEnds(c, u);
      } else {
        t := Next(c, u, MainTimeOut);
        RootTakes(c, u, MainTimeOut);
      }
      ByThen(c, Root, s, u, t);
    }
  }

  lemma {:induction false} ReadingEnds(c: Config, s: State, v: Verdict) returns (t: State)
    requires Inv(c, s) && s.main.Reading?
    ensures LeadsBy(c, Root, s, t) && Inv(c, t) && OnlyRoot(s, t) && t.main.Finished? && t.verdict == v && |t.results| == c.n
    decreases c.n - |s.results|
  {
    hide LeadsBy, RankInv, FileInv;
    if |s.results| == c.n {
      t := Next(c, s, Judge(v));
      RootTakes(c, s, Judge(v));
    } else {
      var u := Next(c, s, Read);
      RootTakes(c, s, Read);
      t := ReadingEnds(c, u, v);
      ByThen(c, Root, s, u, t);
    }
  }

  /** Rank 0, once its own part is over, comes to any verdict by its own steps, whatever the others do. */
  lemma RootEnds(c: Config, s: State, v: Verdict) returns (t: State)
    requires Inv(c, s) && c.n > 0 && s.ranks[0].pc.Ended? && !s.main.Finished?
    ensures LeadsBy(c, Root, s, t) && Inv(c, t) && OnlyRoot(s, t) && t.main.Finished? && t.verdict == v && |t.results| == c.n
  {
    hide LeadsBy, Inv;
    var a := s;
    BySelf(c, Root, s);
    if s.main.Idle? {
      RanksAre(c, s);
      a := Next(c, s, MainStart);
      RootTakes(c, s, MainStart);
    }
    var b := a;
    if a.main.WaitingDone? {
      b := CollectingEnds(c, a);
      ByThen(c, Root, s, a, b);
    }
    t := ReadingEnds(c, b, v);
    ByThen(c, Root, s, b, t);
  }

  lemma RanksAre(c: Config, s: State)
    requires Inv(c, s)
    ensures |s.ranks| == c.n
  {
  }

  // ---------------------------------------------------------------- the whole run

  /** The first i ranks have ended. */
  ghost predicate EndedUpTo(s: State, i: nat) {
    i <= |s.ranks| && forall q :: 0 <= q < i ==> s.ranks[q].pc.Ended?
  }

  lemma {:induction false} RanksEnd(c: Config, s: State, i: nat) returns (t: State)
    requires Inv(c, s) && i <= c.n && EndedUpTo(s, i)
    ensures LeadsBy(c, Anyone, s, t) && Inv(c, t) && t.main == s.main && EndedUpTo(t, c.n)
    decreases c.n - i
  {
    hide LeadsBy, Inv;
    RanksAre(c, s);
    if i == c.n {
      t := s;
      BySelf(c, Anyone, s);
    } else {
      var u := RankEnds(c, s, i);
      ByAnyone(c, OneRank(i), s, u);
      t := RanksEnd(c, u, i + 1);
      ByThen(c, Anyone, s, u, t);
    }
  }

  /**
   From every reachable state the run can be brought to its end without a further exception: all ranks
   ended and, with at least one, every result collected and any verdict given that is still open.
   */
  lemma EveryRunCanEnd(c: Config, s: State, v: Verdict)
    requires Reachable(c, s) && c.n > 0
    ensures exists t :: LeadsBy(c, Anyone, s, t) && EndedUpTo(t, c.n) && t.main.Finished?
                        && (!s.main.Finished? ==> t.verdict == v && |t.results| == c.n)
  {
    hide LeadsBy, Inv, Reachable;
    ReachableInv(c, s);
    var u := RanksEnd(c, s, 0);
    if !s.main.Finished? {
      RanksAre(c, u);
      var t := RootEnds(c, u, v);
      ByAnyone(c, Root, u, t);
      ByThen(c, Anyone, s, u, t);
      assert EndedUpTo(t, c.n);
    }
  }

  /** The wait itself: rank r alone ends it, and true is what it returns exactly when all have marked. */
  lemma EveryWaitCanEnd(c: Config, s: State, r: nat)
    requires Reachable(c, s) && r < c.n
    requires r < |s.ranks| && s.ranks[r].pc.Waiting?
    ensures exists t :: LeadsBy(c, OneRank(r), s, t) && r < |t.ranks|
                        && t.ranks[r].passed == s.ranks[r].passed + [AllMarked(c, s, |s.ranks[r].passed|)]
  {
    hide LeadsBy, Inv, Reachable;
    ReachableInv(c, s);
    RanksAre(c, s);
    var t := WaitEnds(c, s, r);
  }

  /** Rank 0's collecting: by its own steps it ends with any verdict, even if other ranks never end. */
  lemma EveryCollectionCanEnd(c: Config, s: State, v: Verdict)
    requires Reachable(c, s) && (s.main.WaitingDone? || s.main.Reading?)
    ensures exists t :: LeadsBy(c, Root, s, t) && t.ranks == s.ranks && t.main.Finished? && t.verdict == v && |t.results| == c.n
  {
    hide LeadsBy, Inv, Reachable;
    ReachableInv(c, s);
    var b := s;
    BySelf(c, Root, s);
    if s.main.WaitingDone? {
      b := CollectingEnds(c, s);
    }
    var t := ReadingEnds(c, b, v);
    ByThen(c, Root, s, b, t);
  }
}
