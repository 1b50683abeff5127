/** An admission, once on record, through everything the registry and the ledger go through afterwards. */
module AdmissionRuns {
  import opened Common
  import G = Groups
  import A = Authority
  import AP = AuthorityProofs
  import AR = AuthorityRuns
  import Acc = Access
  import X = AccessProofs
  import M = Admissions
  import Ls = Ledgers

  /** One later content the ledger considers, judged in any fair way. */
  datatype Step = Step(arrival: M.Arrival, judge: M.Judge)

  ghost predicate FairSteps(steps: seq<Step>) {
    forall i :: 0 <= i < |steps| ==> M.Fair(steps[i].judge, steps[i].arrival.id)
  }

  ghost function Next(b: M.Book, step: Step): (c: M.Book)
    requires M.Inv(b) && M.Fair(step.judge, step.arrival.id)
    ensures M.Inv(c)
  {
    M.ConsiderKeepsInv(b, step.arrival, step.judge);
    M.Consider(b, step.arrival, step.judge).0
  }

  ghost function After(b: M.Book, steps: seq<Step>): (c: M.Book)
    requires M.Inv(b) && FairSteps(steps)
    ensures M.Inv(c)
    decreases |steps|
  {
    if steps == [] then b else After(Next(b, steps[0]), steps[1..])
  }

  /** The record is there all along. */
  ghost predicate Retained(b: M.Book, steps: seq<Step>, id: Id)
    requires M.Inv(b) && FairSteps(steps)
    decreases |steps|
  {
    id in b.history && (steps == [] || Retained(Next(b, steps[0]), steps[1..], id))
  }

  /** No step may push the record out: it is guarded, or the step's own record or target. */
  predicate Safe(steps: seq<Step>, id: Id) {
    forall i :: 0 <= i < |steps| ==>
      var a := steps[i].arrival; id in a.guarded || a.target == Some(id) || a.id == id
  }

  lemma {:induction false} SafeIsRetained(b: M.Book, steps: seq<Step>, id: Id)
    requires M.Inv(b) && FairSteps(steps) && id in b.history && Safe(steps, id)
    ensures Retained(b, steps, id)
    decreases |steps|
  {
    hide M.Inv, M.Fair, M.Consider;
    if steps != [] {
      M.RecordsAreImmutable(b, steps[0].arrival, steps[0].judge, id);
      SafeIsRetained(Next(b, steps[0]), steps[1..], id);
    }
  }

  lemma {:induction false} RecordStays(b: M.Book, steps: seq<Step>, id: Id)
    requires M.Inv(b) && FairSteps(steps) && Retained(b, steps, id)
    ensures id in b.history && id in After(b, steps).history && After(b, steps).history[id] == b.history[id]
    decreases |steps|
  {
    hide M.Inv, M.Fair, M.Consider;
    if steps != [] {
      M.RecordsAreImmutable(b, steps[0].arrival, steps[0].judge, id);
      RecordStays(Next(b, steps[0]), steps[1..], id);
    }
  }

  lemma FairJudge(c: G.Crypto, me: G.Card, chain: Option<Acc.Chain>, k: Acc.Candidate)
    ensures k.id.Address? ==> M.Fair((prior, target) => Acc.Decide(c, me, chain, k, prior, target), k.id.id)
  {
    hide Acc.Decide, M.Fair;
    if k.id.Address? { Ls.DecideIsFair(c, me, chain, k, k.id.id); }
  }

  /** The access layer's decision about one content, as the ledger asks for it. */
  ghost function JudgeOf(c: G.Crypto, s: A.State, k: Acc.Candidate): (judge: M.Judge)
    requires AP.Indexed(s.group) && A.StatusOf(c, s.me, s.group).Some?
    ensures k.id.Address? ==> M.Fair(judge, k.id.id)
  {
    var chain := Some(X.ChainOf(c, s.me, s.group));
    FairJudge(c, s.me, chain, k);
    (prior, target) => Acc.Decide(c, s.me, chain, k, prior, target)
  }

  lemma AcceptedWasDecided(b: M.Book, a: M.Arrival, judge: M.Judge)
    requires M.Inv(b) && M.Consider(b, a, judge).1.Done? && M.Consider(b, a, judge).1.decision.Accepted?
    ensures M.Consider(b, a, judge).1.decision == judge(M.ContextOf(b.history, Some(a.id)), M.ContextOf(b.history, a.target))
  {
    hide M.Inv, M.Retain, M.Remember, M.Removable, M.HeldBytes, M.Refused;
  }

  /** What an accepting step leaves on record. */
  lemma Admitting(b: M.Book, a: M.Arrival, judge: M.Judge)
    requires M.Inv(b) && M.Fair(judge, a.id) && (a.target.Some? ==> a.target.value in b.history)
    requires M.Consider(b, a, judge).1.Done? && M.Consider(b, a, judge).1.decision.Accepted?
    ensures var (d, r) := M.Consider(b, a, judge);
      && M.ContextOf(d.history, Some(a.id)) == Some(r.decision.context)
      && M.ContextOf(d.history, a.target) == M.ContextOf(b.history, a.target)
  {
    hide M.Inv, M.Fair, M.Consider;
    M.AcceptedIsRecorded(b, a, judge);
    if a.target.Some? { M.RecordsAreImmutable(b, a, judge, a.target.value); }
  }

  /** An admission is for good: once the ledger has accepted a content, then whatever the registry observes or does, and
      whatever else the ledger considers, the same content is accepted again with the same context, as long as its
      record and its target's are kept. */
  lemma AdmittedForGood(
      c: G.Crypto, s: A.State, events: seq<A.Event>, k: Acc.Candidate, b: M.Book, a: M.Arrival, steps: seq<Step>)
    requires c.Injective() && AP.Inv(c, s.me.id, s.group) && A.StatusOf(c, s.me, s.group).Some?
    requires M.Inv(b) && FairSteps(steps) && k.id == Acc.Address(a.id) && (a.target.Some? ==> a.target.value in b.history)
    requires var r := M.Consider(b, a, JudgeOf(c, s, k)).1; r.Done? && r.decision.Accepted?
    requires Retained(Next(b, Step(a, JudgeOf(c, s, k))), steps, a.id)
    requires a.target.Some? ==> Retained(Next(b, Step(a, JudgeOf(c, s, k))), steps, a.target.value)
    ensures var t := A.After(c, s, events); AP.Indexed(t.group) && A.StatusOf(c, t.me, t.group).Some?
    ensures var later := After(Next(b, Step(a, JudgeOf(c, s, k))), steps);
      JudgeOf(c, A.After(c, s, events), k)(M.ContextOf(later.history, Some(a.id)), M.ContextOf(later.history, a.target))
      == Acc.Accepted(M.Consider(b, a, JudgeOf(c, s, k)).1.decision.context, true)
  {
    hide M.Inv, M.Fair, M.Consider, AP.Inv, A.StatusOf, Acc.Decide, X.ChainOf, c.Injective, FairSteps, AP.Indexed;
    AP.InvIndexed(c, s.me.id, s.group);
    var judge := JudgeOf(c, s, k);
    var d := Next(b, Step(a, judge));
    AcceptedWasDecided(b, a, judge);
    Admitting(b, a, judge);
    RecordStays(d, steps, a.id);
    if a.target.Some? { RecordStays(d, steps, a.target.value); }
    X.AdmissionOutlivesRuns(c, s, events, k, M.ContextOf(b.history, Some(a.id)), M.ContextOf(b.history, a.target));
  }
}
