/** How a delivery under way can go on by itself to its next write, whatever else stands still. */
module Continuations {
  import opened Tasks
  import opened Records
  import opened Delivery
  import opened Protocol
  import opened Steps
  import opened Integrity

  /** The terminal record has been dealt with; the reschedule has not. */
  predicate PastFinal(p: Phase) {
    p.Notifying? || p.CallingBack? || p.Rescheduling?
  }

  /** A run that has still to save a successor, and nothing else. */
  predicate HandsOver(d: Delivery) {
    PastFinal(d.phase) && Recurs(d.task)
  }

  /** A run of this task that has not yet written its outcome, or has still to save a successor. */
  predicate Threatens(d: Delivery, id: Id) {
    d.id == id && UnderWay(d.phase) && (PastFinal(d.phase) ==> Recurs(d.task))
  }

  /** What a run under way may do next, when its target answers and its writes succeed. */
  function NextAction(p: Phase, newId: Id): Action
    requires UnderWay(p)
  {
    match p
    case Marking => MarkRunning(true)
    case Firing => CallTarget
    case Executing => TargetAnswers(Result(200, None, 0, 0))
    case Settling => Settle
    case Finalizing => Finalize(true)
    case Notifying => Notify
    case CallingBack => CallbackAnswers
    case Rescheduling => Reschedule(newId, true)
  }

  /** How many more such steps it takes to write. */
  function StepsLeft(p: Phase): nat {
    match p
    case Firing => 3
    case Executing | Notifying => 2
    case Settling | CallingBack => 1
    case _ => 0
  }

  lemma DeliveryGoesOn(c: Config, now: Time, d: Delivery, id: Id, newId: Id, sight: Sight)
    requires DeliveryOk(c, now, d) && Threatens(d, id) && StepsLeft(d.phase) > 0
    ensures var a := NextAction(d.phase, newId);
            && !a.Finish? && !a.Reschedule? && Written(d, a).None? && Can(c, d, a, sight)
            && Threatens(Moved(c, d, a, sight), id)
            && StepsLeft(Moved(c, d, a, sight).phase) < StepsLeft(d.phase)
  {
  }

  /** A step that writes nothing leaves store and books alone. */
  lemma SilentStep(c: Config, s: State, g: nat, a: Action)
    requires Enabled(c, s, Run(g, a)) && !a.Finish? && !a.Reschedule? && Written(s.ctl.gs[g], a).None?
    ensures var t := After(c, s, Run(g, a));
            && t.store == s.store && t.books == s.books
            && g in t.ctl.gs && t.ctl.gs[g] == Moved(c, s.ctl.gs[g], a, SightOf(c, s, s.ctl.gs[g]))
  {
  }

  lemma RunGoesOn(c: Config, s: State, g: nat, id: Id, newId: Id)
    requires Inv(c, s) && g in s.ctl.gs && Threatens(s.ctl.gs[g], id) && StepsLeft(s.ctl.gs[g].phase) > 0
    ensures Enabled(c, s, Run(g, NextAction(s.ctl.gs[g].phase, newId)))
    ensures var t := After(c, s, Run(g, NextAction(s.ctl.gs[g].phase, newId)));
            && t.store == s.store && t.books == s.books
            && g in t.ctl.gs && Threatens(t.ctl.gs[g], id)
            && StepsLeft(t.ctl.gs[g].phase) < StepsLeft(s.ctl.gs[g].phase)
  {
    var d := s.ctl.gs[g];
    assert DeliveryOk(c, s.clock, d);
    DeliveryGoesOn(c, s.clock, d, id, newId, SightOf(c, s, d));
    SilentStep(c, s, g, NextAction(d.phase, newId));
  }

  lemma {:induction false} LongerThan(ids: set<Id>) returns (n: nat)
    ensures forall id :: id in ids ==> |id| < n
  {
    if ids == {} {
      n := 0;
    } else {
      var id :| id in ids;
      n := LongerThan(ids - {id});
      n := Max(n, |id| + 1);
    }
  }

  lemma SomeFreshId(s: State) returns (id: Id)
    ensures IsFresh(s, id)
  {
    var n := LongerThan(s.books.used + s.store.Keys);
    id := seq(n, i => 'a');
    assert |id| == n;
  }

  lemma {:induction false} InvAlong(c: Config, ss: seq<State>, ls: seq<Label>, i: nat, j: nat)
    requires IsPath(c, ss, ls) && i <= j <= |ls| && Inv(c, ss[i])
    ensures Inv(c, ss[j])
  {
    if i < j {
      InvAlong(c, ss, ls, i, j - 1);
      assert StepAt(c, ss, ls, j - 1);
      StepKeepsInv(c, ss[j - 1], ls[j - 1]);
    }
  }

  lemma PathPrepended(c: Config, s: State, l: Label, ss: seq<State>, ls: seq<Label>)
    requires IsPath(c, ss, ls) && Enabled(c, s, l) && ss[0] == After(c, s, l)
    ensures IsPath(c, [s] + ss, [l] + ls)
  {
    forall i | 0 <= i < |[l] + ls|
      ensures StepAt(c, [s] + ss, [l] + ls, i)
    {
      if i > 0 {
        assert StepAt(c, ss, ls, i - 1);
      }
    }
  }
}
