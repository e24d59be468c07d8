/** What the record of a run tells over any sequence of operations (minifleet/scheduler.py). */
module RunHistory {
  import opened Scopes
  import opened Gates
  import opened FleetModel
  import opened FleetSafety
  import opened VerifyMeaning

  // ---- the evidence log ----

  lemma StepKeepsEvidence(glob: Glob, f: Fleet, step: Step)
    ensures f.evidence <= Perform(glob, f, step).evidence
  {
  }

  /** No operation takes evidence back: the log of any state begins with that of every earlier one. */
  lemma {:induction false} RunKeepsEvidence(glob: Glob, states: seq<Fleet>, steps: seq<Step>, j: nat, k: nat)
    requires IsTrace(glob, states, steps) && j <= k <= |steps|
    ensures states[j].evidence <= states[k].evidence
  {
    if j < k {
      RunKeepsEvidence(glob, states, steps, j, k - 1);
      assert Performed(glob, states, steps, k - 1);
      StepKeepsEvidence(glob, states[k - 1], steps[k - 1]);
    }
  }

  // ---- verdicts are answered for once ----

  /** A step that leaves the verdict alone: neither a verification nor an integration that fails. */
  ghost predicate KeepsVerdict(f: Fleet, step: Step) {
    && !step.DoVerify?
    && (step.DoIntegrate? ==> IntegrationOutcome(f, step.world).0 == Integrated)
  }

  lemma StepKeepsVerdict(glob: Glob, f: Fleet, step: Step)
    requires KeepsVerdict(f, step)
    ensures Perform(glob, f, step).verdict == f.verdict && Perform(glob, f, step).attributed == f.attributed
  {
  }

  lemma VerifyAnswers(f: Fleet, observe: nat -> Observation, maxAttempts: int)
    ensures !Unanswered(Verify(f, observe, maxAttempts))
  {
    var gs, rows, required := VerifyMeans(f, observe, maxAttempts);
  }

  lemma {:induction false} StaysAnswered(glob: Glob, states: seq<Fleet>, steps: seq<Step>, j: nat, k: nat)
    requires IsTrace(glob, states, steps) && j <= k <= |steps| && !Unanswered(states[j])
    requires forall i :: j <= i < k ==> KeepsVerdict(states[i], steps[i])
    ensures !Unanswered(states[k])
  {
    if j < k {
      StaysAnswered(glob, states, steps, j, k - 1);
      assert Performed(glob, states, steps, k - 1);
      StepKeepsVerdict(glob, states[k - 1], steps[k - 1]);
    }
  }

  /** In any run: after a verification, and until a verdict is given again, repair blames nobody a second time; it
      only reopens what failed. */
  lemma VerdictAnsweredOnce(glob: Glob, states: seq<Fleet>, steps: seq<Step>, j: nat, k: nat, i: nat)
    requires IsTrace(glob, states, steps) && j < k <= |steps| && steps[j].DoVerify?
    requires forall m :: j < m < k ==> KeepsVerdict(states[m], steps[m])
    ensures !RepairBlames(states[k], i)
  {
    assert Performed(glob, states, steps, j);
    VerifyAnswers(states[j], steps[j].observe, steps[j].maxAttempts);
    StaysAnswered(glob, states, steps, j + 1, k);
  }

  /** And a verdict that an integration gives is unanswered, unless it repeats the one answered last: repair then
      asks about every gate that is red in the log. */
  lemma FailedIntegrationIsUnanswered(f: Fleet, w: GitWorld)
    requires IntegrationOutcome(f, w).0 != Integrated
    ensures Unanswered(Integrate(f, w)) <==> Integrate(f, w).verdict != f.attributed
  {
  }
}
