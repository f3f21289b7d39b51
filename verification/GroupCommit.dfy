/**
 Group-commit fsync as a step machine. The first append to finish its write
 arms one flush behind a yield; every append that arrives before the yield
 fires shares it; the flag is cleared before the flush starts, so later ones arm
 the next. A rollover replaces the active segment file in two steps.
 */
module GroupCommit {
  import opened Wrappers

  /** Where an fsync-mode append stands. */
  datatype Phase = Writing | Written | Waiting(flush: nat) | Done | Failed

  datatype Append = Append(segment: nat, phase: Phase)

  /** `covers` are the appends whose write had completed when the flush began. */
  datatype Flush = Armed | Running(segment: nat, covers: set<nat>) | Finished(segment: nat, covers: set<nat>) | Skipped

  datatype State = State(
    file: Option<nat>,
    created: nat,
    scheduled: bool,
    pending: nat,
    flushes: seq<Flush>,
    appends: map<nat, Append>)

  datatype Step =
    | BeginWrite(id: nat)
    | WriteDone(id: nat)
    | MaybeFlush(id: nat)
    | YieldFires(flush: nat)
    | FlushDone(flush: nat)
    | Resume(id: nat)
    | SwapStart
    | SwapEnd

  predicate InPhase(s: State, id: nat, p: Phase) {
    id in s.appends && s.appends[id].phase == p
  }

  predicate Resolved(f: Flush) {
    f.Finished? || f.Skipped?
  }

  predicate Enabled(s: State, t: Step) {
    match t
    case BeginWrite(id) => s.file.Some? && id !in s.appends
    case WriteDone(id) => InPhase(s, id, Writing)
    case MaybeFlush(id) => InPhase(s, id, Written)
    case YieldFires(i) => i < |s.flushes| && s.flushes[i] == Armed
    case FlushDone(i) => i < |s.flushes| && s.flushes[i].Running?
    case Resume(id) =>
      id in s.appends && s.appends[id].phase.Waiting?
      && s.appends[id].phase.flush < |s.flushes| && Resolved(s.flushes[s.appends[id].phase.flush])
    case SwapStart => s.file.Some?
    case SwapEnd => s.file.None?
  }

  function SetPhase(s: State, id: nat, p: Phase): State
    requires id in s.appends
  {
    s.(appends := s.appends[id := s.appends[id].(phase := p)])
  }

  /** Appends whose device write has completed. */
  function WrittenIds(s: State): set<nat> {
    set id | id in s.appends && s.appends[id].phase != Writing
  }

  function Next(s: State, t: Step): State
    requires Enabled(s, t)
  {
    match t
    case BeginWrite(id) => s.(appends := s.appends[id := Append(s.file.value, Writing)])
    case WriteDone(id) => SetPhase(s, id, Written)
    case MaybeFlush(id) =>
      if s.file.None? then SetPhase(s, id, Failed)
      else if s.scheduled then SetPhase(s, id, Waiting(s.pending))
      else SetPhase(s.(scheduled := true, pending := |s.flushes|, flushes := s.flushes + [Armed]), id,
                    Waiting(|s.flushes|))
    case YieldFires(i) =>
      var f := if s.file.None? then Skipped else Running(s.file.value, WrittenIds(s));
      s.(scheduled := false, flushes := s.flushes[i := f])
    case FlushDone(i) =>
      s.(flushes := s.flushes[i := Finished(s.flushes[i].segment, s.flushes[i].covers)])
    case Resume(id) => SetPhase(s, id, Done)
    case SwapStart => s.(file := None)
    case SwapEnd => s.(file := Some(s.created), created := s.created + 1)
  }

  const INITIAL := State(Some(0), 1, false, 0, [], map[])

  /** A swap may start only with no write and no scheduled flush outstanding on the old segment. */
  predicate Guarded(s: State, t: Step) {
    t.SwapStart? ==>
      !s.scheduled && forall id :: id in s.appends ==> s.appends[id].phase != Writing && s.appends[id].phase != Written
  }

  ghost predicate IsRun(s: State, steps: seq<Step>, s': State)
    decreases |steps|
  {
    if steps == [] then s' == s
    else Enabled(s, steps[0]) && IsRun(Next(s, steps[0]), steps[1..], s')
  }

  ghost predicate IsGuardedRun(s: State, steps: seq<Step>, s': State)
    decreases |steps|
  {
    if steps == [] then s' == s
    else Enabled(s, steps[0]) && Guarded(s, steps[0]) && IsGuardedRun(Next(s, steps[0]), steps[1..], s')
  }

  // ---- Safety --------------------------------------------------------------

  /** Flush f is of the append's own segment and began after its write completed. */
  predicate Protects(f: Flush, id: nat, segment: nat) {
    (f.Running? || f.Finished?) && f.segment == segment && id in f.covers
  }

  /** A finished flush made the append durable. */
  ghost predicate Durable(s: State, id: nat)
    requires id in s.appends
  {
    exists i :: 0 <= i < |s.flushes| && s.flushes[i].Finished? && Protects(s.flushes[i], id, s.appends[id].segment)
  }

  predicate AppendOk(s: State, id: nat)
    requires id in s.appends
  {
    var a := s.appends[id];
    match a.phase
    case Writing => s.file == Some(a.segment)
    case Written => s.file == Some(a.segment)
    case Waiting(i) =>
      && i < |s.flushes|
      && if s.flushes[i] == Armed then s.file == Some(a.segment) else Protects(s.flushes[i], id, a.segment)
    case Done => true
    case Failed => false
  }

  ghost predicate Inv(s: State) {
    && (s.scheduled ==> s.pending < |s.flushes| && s.flushes[s.pending] == Armed && s.file.Some?)
    && (forall i :: 0 <= i < |s.flushes| && s.flushes[i] == Armed ==> s.scheduled && i == s.pending)
    && (forall id :: id in s.appends ==> AppendOk(s, id))
    && (forall id :: id in s.appends && s.appends[id].phase == Done ==> Durable(s, id))
  }

  lemma KeepDurable(s: State, s': State, id: nat)
    requires id in s.appends && id in s'.appends && s'.appends[id].segment == s.appends[id].segment
    requires |s.flushes| <= |s'.flushes|
    requires forall i :: 0 <= i < |s.flushes| && s.flushes[i].Finished? ==> s'.flushes[i] == s.flushes[i]
    requires Durable(s, id)
    ensures Durable(s', id)
  {
    var i :| 0 <= i < |s.flushes| && s.flushes[i].Finished? && Protects(s.flushes[i], id, s.appends[id].segment);
    assert s'.flushes[i] == s.flushes[i];
  }

  lemma StepInv(s: State, t: Step)
    requires Inv(s) && Enabled(s, t) && Guarded(s, t)
    ensures Inv(Next(s, t))
  {
    var s' := Next(s, t);
    assert |s.flushes| <= |s'.flushes|;
    forall id | id in s'.appends && s'.appends[id].phase == Done
      ensures Durable(s', id)
    {
      if id in s.appends && s.appends[id].phase == Done {
        KeepDurable(s, s', id);
      } else {
        var i := s.appends[id].phase.flush;
        assert AppendOk(s, id) && s.flushes[i].Finished?;
        assert Protects(s'.flushes[i], id, s'.appends[id].segment);
      }
    }
    forall id | id in s'.appends
      ensures AppendOk(s', id)
    {
      if id in s.appends {
        assert AppendOk(s, id);
      }
    }
  }

  lemma {:induction false} RunInv(s: State, steps: seq<Step>, s': State)
    requires Inv(s) && IsGuardedRun(s, steps, s')
    ensures Inv(s')
    decreases |steps|
  {
    hide Inv, Enabled, Guarded, Next;
    if steps != [] {
      StepInv(s, steps[0]);
      RunInv(Next(s, steps[0]), steps[1..], s');
    }
  }

  /**
   Group-commit safety. Over every interleaving in which swaps are guarded, an
   append completes only after a finished flush of its own segment that began
   after its write had completed, and none fails for want of an open file.
   */
  lemma GroupCommitSafety(steps: seq<Step>, s: State)
    requires IsGuardedRun(INITIAL, steps, s)
    ensures forall id :: id in s.appends && s.appends[id].phase == Done ==> Durable(s, id)
    ensures forall id :: id in s.appends ==> s.appends[id].phase != Failed
  {
    RunInv(INITIAL, steps, s);
    assert forall id :: id in s.appends ==> AppendOk(s, id);
  }

  // ---- Exactly when a swap is harmless --------------------------------------

  /** The append's own flush has not started yet. */
  predicate Exposed(s: State, id: nat)
    requires id in s.appends
  {
    match s.appends[id].phase
    case Writing => true
    case Written => true
    case Waiting(i) => i < |s.flushes| && s.flushes[i] == Armed
    case _ => false
  }

  /** Weaker than Guarded: a swap may start while an append is exposed, if an earlier flush made it durable. */
  ghost predicate Harmless(s: State, t: Step) {
    t.SwapStart? ==> forall id :: id in s.appends && Exposed(s, id) ==> Durable(s, id)
  }

  ghost predicate IsHarmlessRun(s: State, steps: seq<Step>, s': State)
    decreases |steps|
  {
    if steps == [] then s' == s
    else Enabled(s, steps[0]) && Harmless(s, steps[0]) && IsHarmlessRun(Next(s, steps[0]), steps[1..], s')
  }

  ghost predicate AllDurable(s: State) {
    forall id :: id in s.appends && s.appends[id].phase == Done ==> Durable(s, id)
  }

  /** The flush an append waits for, or will arm, is one of its own segment. */
  predicate Secure(s: State, id: nat)
    requires id in s.appends
  {
    var a := s.appends[id];
    match a.phase
    case Writing => s.file == Some(a.segment)
    case Written => s.file == Some(a.segment)
    case Waiting(i) =>
      && i < |s.flushes|
      && if s.flushes[i] == Armed then s.file == Some(a.segment) else Protects(s.flushes[i], id, a.segment)
    case Done => false
    case Failed => true
  }

  /** The flag is set exactly while the pending flush is armed. */
  ghost predicate FlagOk(s: State) {
    && (s.scheduled ==> s.pending < |s.flushes| && s.flushes[s.pending] == Armed)
    && (forall i :: 0 <= i < |s.flushes| && s.flushes[i] == Armed ==> s.scheduled && i == s.pending)
  }

  ghost predicate Tracked(s: State) {
    && FlagOk(s)
    && (s.file.Some? ==> s.file.value < s.created)
    && (forall id :: id in s.appends ==> s.appends[id].segment < s.created)
    && (forall id :: id in s.appends ==> Durable(s, id) || Secure(s, id))
    && CoversWritten(s)
  }

  /** Flushes cover only writes that had completed. */
  ghost predicate CoversWritten(s: State) {
    forall i :: 0 <= i < |s.flushes| && (s.flushes[i].Running? || s.flushes[i].Finished?) ==>
        s.flushes[i].covers <= WrittenIds(s)
  }

  lemma StepCovers(s: State, t: Step)
    requires CoversWritten(s) && Enabled(s, t)
    ensures CoversWritten(Next(s, t))
  {
    assert WrittenIds(s) <= WrittenIds(Next(s, t));
  }

  lemma StepTracked(s: State, t: Step)
    requires Tracked(s) && Enabled(s, t) && Harmless(s, t)
    ensures Tracked(Next(s, t))
  {
    var s' := Next(s, t);
    StepCovers(s, t);
    hide CoversWritten;
    assert |s.flushes| <= |s'.flushes|;
    forall id | id in s'.appends
      ensures Durable(s', id) || Secure(s', id)
    {
      if id in s.appends {
        if t == Resume(id) {
          assert s.flushes[s.appends[id].phase.flush] != Armed;
        }
        if Durable(s, id) {
          KeepDurable(s, s', id);
        }
      }
    }
  }

  lemma {:induction false} RunTracked(s: State, steps: seq<Step>, s': State)
    requires Tracked(s) && IsHarmlessRun(s, steps, s')
    ensures Tracked(s')
    decreases |steps|
  {
    hide Tracked, Enabled, Harmless, Next;
    if steps != [] {
      StepTracked(s, steps[0]);
      RunTracked(Next(s, steps[0]), steps[1..], s');
    }
  }

  lemma RunCons(s: State, t: Step, rest: seq<Step>, s': State)
    requires Enabled(s, t) && Harmless(s, t) && IsHarmlessRun(Next(s, t), rest, s')
    ensures IsHarmlessRun(s, [t] + rest, s')
  {
    assert ([t] + rest)[1..] == rest;
  }

  /** Waiting for an armed flush while another segment is active, an append completes without being durable. */
  lemma LateFlush(s: State, id: nat, i: nat) returns (steps: seq<Step>, s': State)
    requires InPhase(s, id, Waiting(i)) && i < |s.flushes| && s.flushes[i] == Armed
    requires s.file.Some? && s.file.value != s.appends[id].segment && !Durable(s, id)
    ensures IsHarmlessRun(s, steps, s') && InPhase(s', id, Done) && !Durable(s', id)
  {
    var s1 := Next(s, YieldFires(i));
    var s2 := Next(s1, FlushDone(i));
    s' := Next(s2, Resume(id));
    assert IsHarmlessRun(s', [], s');
    RunCons(s2, Resume(id), [], s');
    RunCons(s1, FlushDone(i), [Resume(id)] + [], s');
    steps := [YieldFires(i)] + ([FlushDone(i)] + ([Resume(id)] + []));
    RunCons(s, YieldFires(i), [FlushDone(i)] + ([Resume(id)] + []), s');
    forall j | 0 <= j < |s'.flushes| && s'.flushes[j].Finished?
      ensures !Protects(s'.flushes[j], id, s'.appends[id].segment)
    {
      if j != i {
        assert s'.flushes[j] == s.flushes[j];
      }
    }
  }

  /** A written append that arms or joins a flush after its segment was replaced. */
  lemma LateArm(s: State, id: nat) returns (steps: seq<Step>, s': State)
    requires FlagOk(s) && InPhase(s, id, Written)
    requires s.file.Some? && s.file.value != s.appends[id].segment && !Durable(s, id)
    ensures IsHarmlessRun(s, steps, s') && InPhase(s', id, Done) && !Durable(s', id)
  {
    var s1 := Next(s, MaybeFlush(id));
    assert !Durable(s1, id) by {
      assert forall j :: 0 <= j < |s1.flushes| && s1.flushes[j].Finished? ==>
          j < |s.flushes| && s1.flushes[j] == s.flushes[j];
    }
    steps, s' := LateFlush(s1, id, s1.appends[id].phase.flush);
    RunCons(s, MaybeFlush(id), steps, s');
    steps := [MaybeFlush(id)] + steps;
  }

  /** From a state whose new segment is open, an exposed append can complete without being durable. */
  lemma LateAppend(s: State, id: nat) returns (steps: seq<Step>, s': State)
    requires FlagOk(s) && id in s.appends && Exposed(s, id) && !Durable(s, id)
    requires s.file.Some? && s.file.value != s.appends[id].segment
    ensures IsHarmlessRun(s, steps, s') && InPhase(s', id, Done) && !Durable(s', id)
  {
    match s.appends[id].phase
    case Writing =>
      var s1 := Next(s, WriteDone(id));
      assert !Durable(s1, id) by { assert s1.flushes == s.flushes; }
      steps, s' := LateArm(s1, id);
      RunCons(s, WriteDone(id), steps, s');
      steps := [WriteDone(id)] + steps;
    case Written =>
      steps, s' := LateArm(s, id);
    case Waiting(i) =>
      steps, s' := LateFlush(s, id, i);
  }

  /**
   A swap is harmless exactly when every append that is still exposed is durable
   already: then no continuation completes an append that no flush covered, and
   otherwise some continuation does.
   */
  lemma SwapSafeIff(steps: seq<Step>, s: State)
    requires IsHarmlessRun(INITIAL, steps, s) && s.file.Some?
    ensures (forall rest, s' :: IsHarmlessRun(Next(s, SwapStart), rest, s') ==> AllDurable(s'))
              <==> Harmless(s, SwapStart)
  {
    RunTracked(INITIAL, steps, s);
    if Harmless(s, SwapStart) {
      StepTracked(s, SwapStart);
      forall rest, s' | IsHarmlessRun(Next(s, SwapStart), rest, s')
        ensures AllDurable(s')
      {
        RunTracked(Next(s, SwapStart), rest, s');
      }
    } else {
      var id :| id in s.appends && Exposed(s, id) && !Durable(s, id);
      LateSwap(s, id);
    }
  }

  lemma LateSwap(s: State, id: nat)
    requires Tracked(s) && s.file.Some? && id in s.appends && Exposed(s, id) && !Durable(s, id)
    ensures exists rest, s' :: IsHarmlessRun(Next(s, SwapStart), rest, s') && !AllDurable(s')
  {
    var s1 := Next(s, SwapStart);
    var s2 := Next(s1, SwapEnd);
    assert s2.flushes == s.flushes && s2.appends == s.appends;
    var rest, s' := LateAppend(s2, id);
    RunCons(s1, SwapEnd, rest, s');
    assert !AllDurable(s');
  }

  /** Guarded runs are harmless runs: what holds of the weaker condition holds of the guard. */
  lemma {:induction false} GuardedIsHarmless(s: State, steps: seq<Step>, s': State)
    requires Inv(s) && IsGuardedRun(s, steps, s')
    ensures IsHarmlessRun(s, steps, s')
    decreases |steps|
  {
    if steps != [] {
      StepInv(s, steps[0]);
      hide Next, Enabled;
      GuardedIsHarmless(Next(s, steps[0]), steps[1..], s');
    }
  }

  /** Draining the scheduled flush is not enough: a swap under an outstanding write is never harmless. */
  lemma OutstandingWriteIsExposed(steps: seq<Step>, s: State, id: nat)
    requires IsHarmlessRun(INITIAL, steps, s) && s.file.Some? && !s.scheduled && InPhase(s, id, Writing)
    ensures exists rest, s' :: IsHarmlessRun(Next(s, SwapStart), rest, s') && !AllDurable(s')
  {
    RunTracked(INITIAL, steps, s);
    assert id !in WrittenIds(s);
    LateSwap(s, id);
  }
}
