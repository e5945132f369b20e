/** Claims, slots, the wait group and the counters, in every reachable state. */
module Claims {
  import opened Tasks
  import opened Selection
  import opened Delivery
  import opened Protocol
  import opened Steps

  // ---- counting goroutines

  datatype Kind = Slotted | Committed | Won

  predicate IsKind(k: Kind, d: Delivery) {
    match k
    case Slotted => HoldsSlot(d.phase)
    case Committed => d.phase.Marking? || d.phase.Firing? || d.phase.Executing? || d.phase.Settling?
    case Won => d.phase.Settling? && d.task.status.Succeeded?
  }

  ghost function Of(gs: map<nat, Delivery>, k: Kind): set<nat> {
    set g | g in gs && IsKind(k, gs[g])
  }

  function One(b: bool): int {
    if b then 1 else 0
  }

  lemma CountMoved(gs: map<nat, Delivery>, g: nat, d: Delivery, k: Kind)
    ensures |Of(gs[g := d], k)| == |Of(gs, k)| + One(IsKind(k, d)) - (if g in gs then One(IsKind(k, gs[g])) else 0)
  {
    var a, b := Of(gs, k), Of(gs[g := d], k);
    assert b == if IsKind(k, d) then a + {g} else a - {g};
  }

  lemma CountDropped(gs: map<nat, Delivery>, g: nat, k: Kind)
    requires g in gs
    ensures |Of(gs - {g}, k)| == |Of(gs, k)| - One(IsKind(k, gs[g]))
  {
    assert Of(gs - {g}, k) == Of(gs, k) - {g};
  }

  // ---- the invariants

  ghost predicate IsHeld(gs: map<nat, Delivery>, id: Id) {
    exists g :: g in gs && gs[g].id == id && HoldsClaim(gs[g].phase)
  }

  /** The in-flight set is exactly the ids of the goroutines holding a claim, one goroutine each. */
  ghost predicate Exclusive(gs: map<nat, Delivery>, inflight: set<Id>) {
    && (forall g :: g in gs && HoldsClaim(gs[g].phase) ==> gs[g].id in inflight)
    && (forall id :: id in inflight ==> IsHeld(gs, id))
    && (forall g, h :: g in gs && h in gs && g != h && HoldsClaim(gs[g].phase) && HoldsClaim(gs[h].phase)
          ==> gs[g].id != gs[h].id)
  }

  ghost predicate ClaimsExact(r: Control) {
    Exclusive(r.gs, r.inflight)
  }

  /** Slots and the wait group count what they are meant to count. */
  ghost predicate CountsExact(c: Config, r: Control) {
    && (forall g :: g in r.gs ==> g < r.nextG)
    && r.wg == |r.gs|
    && r.sem == |Of(r.gs, Kind.Slotted)| <= c.slots
    && (r.loop.Down? || r.loop == Stopped(true) ==> r.gs == map[])
  }

  /** The counters agree with each other, up to the runs still under way. */
  ghost predicate TallyExact(r: Control) {
    && r.tally.gauge == r.sem
    && r.tally.lateness + r.tally.skipped == r.tally.succeeded + r.tally.failed + |Of(r.gs, Committed)|
    && r.tally.delivered == r.tally.succeeded + |Of(r.gs, Won)|
    && r.tally.durations == r.tally.delivered + r.tally.undelivered
  }

  ghost predicate ControlOk(c: Config, r: Control) {
    ClaimsExact(r) && CountsExact(c, r) && TallyExact(r)
  }

  // ---- one step of a goroutine

  lemma MoveKeepsExclusive(gs: map<nat, Delivery>, inflight: set<Id>, g: nat, e: Delivery)
    requires Exclusive(gs, inflight) && g in gs && e.id == gs[g].id
    requires HoldsClaim(e.phase) <==> HoldsClaim(gs[g].phase)
    ensures Exclusive(gs[g := e], inflight)
  {
    forall id | id in inflight
      ensures IsHeld(gs[g := e], id)
    {
      var h :| h in gs && gs[h].id == id && HoldsClaim(gs[h].phase);
      assert h in gs[g := e] && gs[g := e][h].id == id;
    }
  }

  lemma ReleaseKeepsExclusive(gs: map<nat, Delivery>, inflight: set<Id>, g: nat, e: Delivery)
    requires Exclusive(gs, inflight) && g in gs && e.id == gs[g].id
    requires HoldsClaim(gs[g].phase) && !HoldsClaim(e.phase)
    ensures Exclusive(gs[g := e], inflight - {e.id})
  {
    forall id | id in inflight && id != e.id
      ensures IsHeld(gs[g := e], id)
    {
      var h :| h in gs && gs[h].id == id && HoldsClaim(gs[h].phase);
      assert h in gs[g := e] && gs[g := e][h].id == id;
    }
  }

  lemma DropKeepsExclusive(gs: map<nat, Delivery>, inflight: set<Id>, g: nat)
    requires Exclusive(gs, inflight) && g in gs && !HoldsClaim(gs[g].phase)
    ensures Exclusive(gs - {g}, inflight)
  {
    forall id | id in inflight
      ensures IsHeld(gs - {g}, id)
    {
      var h :| h in gs && gs[h].id == id && HoldsClaim(gs[h].phase);
      assert h in gs - {g} && (gs - {g})[h].id == id;
    }
  }

  lemma AddKeepsExclusive(gs: map<nat, Delivery>, inflight: set<Id>, g: nat, e: Delivery)
    requires Exclusive(gs, inflight) && g !in gs && e.id !in inflight && HoldsClaim(e.phase)
    ensures Exclusive(gs[g := e], inflight + {e.id})
  {
    forall id | id in inflight + {e.id}
      ensures IsHeld(gs[g := e], id)
    {
      if id != e.id {
        var h :| h in gs && gs[h].id == id && HoldsClaim(gs[h].phase);
        assert h in gs[g := e] && gs[g := e][h].id == id;
      } else {
        assert g in gs[g := e] && gs[g := e][g].id == id;
      }
    }
  }

  lemma StepClaim(c: Config, d: Delivery, a: Action, sight: Sight)
    requires Can(c, d, a, sight)
    ensures Moved(c, d, a, sight).id == d.id
    ensures HoldsClaim(Moved(c, d, a, sight).phase) <==> HoldsClaim(d.phase) && !a.FreeClaim?
    ensures a.FreeClaim? ==> HoldsClaim(d.phase)
    ensures a.Finish? ==> !HoldsClaim(d.phase)
  {
  }

  lemma RunKeepsClaims(c: Config, r: Control, g: nat, a: Action, sight: Sight)
    requires ClaimsExact(r) && g in r.gs && Can(c, r.gs[g], a, sight)
    ensures ClaimsExact(ControlAfterRun(c, r, g, a, sight))
  {
    var d := r.gs[g];
    StepClaim(c, d, a, sight);
    if a.Finish? {
      DropKeepsExclusive(r.gs, r.inflight, g);
    } else if a.FreeClaim? {
      ReleaseKeepsExclusive(r.gs, r.inflight, g, Moved(c, d, a, sight));
    } else {
      MoveKeepsExclusive(r.gs, r.inflight, g, Moved(c, d, a, sight));
    }
  }

  /** Slots move with the phases, and the counters with both. */
  lemma StepBalance(c: Config, d: Delivery, a: Action, sight: Sight, m: Tally)
    requires Can(c, d, a, sight)
    requires d.phase.Settling? ==> d.task.status.Succeeded? || d.task.status.Failed?
    ensures var e, n := Moved(c, d, a, sight), Counted(c, d, a, sight, m);
            && One(HoldsSlot(e.phase)) - One(HoldsSlot(d.phase)) == One(a.TakeSlot?) - One(a.FreeSlot?)
            && n.gauge - m.gauge == One(a.TakeSlot?) - One(a.FreeSlot?)
            && (n.lateness + n.skipped - n.succeeded - n.failed) - (m.lateness + m.skipped - m.succeeded - m.failed)
               == One(IsKind(Committed, e)) - One(IsKind(Committed, d))
            && (n.delivered - n.succeeded) - (m.delivered - m.succeeded) == One(IsKind(Won, e)) - One(IsKind(Won, d))
            && n.durations - n.delivered - n.undelivered == m.durations - m.delivered - m.undelivered
  {
  }

  lemma RunKeepsCounts(c: Config, r: Control, g: nat, a: Action, sight: Sight)
    requires CountsExact(c, r) && TallyExact(r) && g in r.gs && Can(c, r.gs[g], a, sight)
    requires sight.slotFree <==> r.sem < c.slots
    requires r.gs[g].phase.Settling? ==> r.gs[g].task.status.Succeeded? || r.gs[g].task.status.Failed?
    ensures CountsExact(c, ControlAfterRun(c, r, g, a, sight)) && TallyExact(ControlAfterRun(c, r, g, a, sight))
  {
    var d := r.gs[g];
    var e := Moved(c, d, a, sight);
    StepBalance(c, d, a, sight, r.tally);
    SizePositive(r.gs, g);
    if HoldsSlot(d.phase) {
      MemberCounted(Of(r.gs, Kind.Slotted), g);
    }
    if a.Finish? {
      CountDropped(r.gs, g, Kind.Slotted);
      CountDropped(r.gs, g, Committed);
      CountDropped(r.gs, g, Won);
      SizeDropped(r.gs, g);
    } else {
      CountMoved(r.gs, g, e, Kind.Slotted);
      CountMoved(r.gs, g, e, Committed);
      CountMoved(r.gs, g, e, Won);
      SizeKept(r.gs, g, e);
    }
  }

  lemma MemberCounted<T>(xs: set<T>, x: T)
    requires x in xs
    ensures |xs| >= 1
  {
    assert xs == {x} + (xs - {x});
  }

  lemma SizePositive<V>(m: map<nat, V>, g: nat)
    requires g in m
    ensures |m| >= 1
  {
  }

  lemma SizeDropped<V>(m: map<nat, V>, g: nat)
    requires g in m
    ensures |m - {g}| == |m| - 1
  {
    assert (m - {g}).Keys == m.Keys - {g};
    assert |m - {g}| == |(m - {g}).Keys| && |m| == |m.Keys|;
  }

  lemma SizeKept<V>(m: map<nat, V>, g: nat, v: V)
    requires g in m
    ensures |m[g := v]| == |m|
  {
    assert m[g := v].Keys == m.Keys;
    assert |m[g := v]| == |m[g := v].Keys| && |m| == |m.Keys|;
  }

  // ---- a claim

  lemma CountNew(gs: map<nat, Delivery>, g: nat, d: Delivery, k: Kind)
    requires g !in gs && !IsKind(k, d)
    ensures |Of(gs[g := d], k)| == |Of(gs, k)|
  {
    CountMoved(gs, g, d, k);
  }

  lemma SizeGrown<V>(m: map<nat, V>, g: nat, v: V)
    requires g !in m
    ensures |m[g := v]| == |m| + 1
  {
    assert m[g := v].Keys == m.Keys + {g};
    assert |m[g := v]| == |m[g := v].Keys| && |m| == |m.Keys|;
  }

  lemma ClaimKeepsCounts(c: Config, r: Control)
    requires CountsExact(c, r) && TallyExact(r) && r.loop.Serving? && r.loop.batch != []
    ensures CountsExact(c, AfterClaim(r)) && TallyExact(AfterClaim(r))
  {
    var t := r.loop.batch[0];
    if t.id !in r.inflight {
      var d := NewDelivery(t);
      assert r.nextG !in r.gs;
      CountNew(r.gs, r.nextG, d, Kind.Slotted);
      CountNew(r.gs, r.nextG, d, Committed);
      CountNew(r.gs, r.nextG, d, Won);
      SizeGrown(r.gs, r.nextG, d);
    }
  }

  lemma ClaimKeepsClaims(r: Control)
    requires ClaimsExact(r) && r.loop.Serving? && r.loop.batch != [] && r.nextG !in r.gs
    ensures ClaimsExact(AfterClaim(r))
  {
    var t := r.loop.batch[0];
    if t.id !in r.inflight {
      AddKeepsExclusive(r.gs, r.inflight, r.nextG, NewDelivery(t));
    }
  }

  // ---- every step

  /** Steps of the API, the clock and the main loop leave the goroutines and their counters alone. */
  ghost predicate SameControl(r: Control, u: Control) {
    && u.inflight == r.inflight && u.sem == r.sem && u.wg == r.wg && u.gs == r.gs && u.nextG == r.nextG && u.tally == r.tally
    && (u.loop.Down? || u.loop == Stopped(true) ==> r.gs == map[])
  }

  lemma NoGoroutines(c: Config, r: Control)
    requires r.inflight == {} && r.sem == 0 && r.wg == 0 && r.gs == map[] && r.tally == NO_TALLY
    ensures ControlOk(c, r)
  {
    assert Of(r.gs, Kind.Slotted) == {} && Of(r.gs, Committed) == {} && Of(r.gs, Won) == {};
  }

  ghost predicate EmptyWhenIdle(r: Control) {
    r.wg == 0 || r.loop.Down? || r.loop == Stopped(true) ==> r.gs == map[]
  }

  lemma CountsGiveEmpty(c: Config, r: Control)
    requires CountsExact(c, r)
    ensures EmptyWhenIdle(r)
  {
  }

  lemma RunKeepsControl(c: Config, r: Control, g: nat, a: Action, sight: Sight)
    requires ControlOk(c, r) && g in r.gs && Can(c, r.gs[g], a, sight)
    requires DeliveryOk(c, sight.now, r.gs[g]) && (sight.slotFree <==> r.sem < c.slots)
    ensures ControlOk(c, ControlAfterRun(c, r, g, a, sight))
  {
    RunKeepsClaims(c, r, g, a, sight);
    RunKeepsCounts(c, r, g, a, sight);
  }

  lemma ClaimKeepsControl(c: Config, r: Control)
    requires ControlOk(c, r) && r.loop.Serving? && r.loop.batch != []
    ensures ControlOk(c, AfterClaim(r))
  {
    ClaimKeepsClaims(r);
    ClaimKeepsCounts(c, r);
  }

  lemma SameControlKeeps(c: Config, r: Control, u: Control)
    requires ControlOk(c, r) && SameControl(r, u)
    ensures ControlOk(c, u)
  {
  }

  lemma LoopStepKeepsControl(c: Config, r: Control, u: Control)
    requires ControlOk(c, r) && u == r.(loop := u.loop, stopping := u.stopping)
    requires u.loop.Down? ==> r.loop.Down?
    requires u.loop == Stopped(true) ==> r.loop == Stopped(true) || r.wg == 0
    ensures ControlOk(c, u)
  {
    CountsGiveEmpty(c, r);
    SameControlKeeps(c, r, u);
  }

  lemma StepKeepsControl(c: Config, s: State, l: Label, u: Control)
    requires ControlOk(c, s.ctl) && ControlStep(c, s, l, u)
    requires l.Run? ==> DeliveryOk(c, s.clock, s.ctl.gs[l.g])
    ensures ControlOk(c, u)
  {
    match l {
      case Run(g, a) => RunKeepsControl(c, s.ctl, g, a, SightOf(c, s, s.ctl.gs[g]));
      case Claim => ClaimKeepsControl(c, s.ctl);
      case Crash => NoGoroutines(c, u);
      case _ => LoopStepKeepsControl(c, s.ctl, u);
    }
  }

  // ---- what the invariants say

  /** No two goroutines ever deliver, or wait to deliver, the same task. */
  lemma OneGoroutinePerTask(r: Control, g: nat, h: nat)
    requires ClaimsExact(r) && g in r.gs && h in r.gs && r.gs[g].id == r.gs[h].id
    requires HoldsClaim(r.gs[g].phase) && HoldsClaim(r.gs[h].phase)
    ensures g == h
  {
  }

  /** The goroutines with a request of theirs on the network. */
  ghost function Calling(gs: map<nat, Delivery>): set<nat> {
    set g | g in gs && CallsOut(gs[g].phase)
  }

  /** Calls in progress, failure callbacks included, never exceed the number of slots. */
  lemma CallsWithinSlots(c: Config, r: Control)
    requires CountsExact(c, r)
    ensures |Calling(r.gs)| <= r.sem <= c.slots
  {
    CardBound(Calling(r.gs), Of(r.gs, Kind.Slotted));
  }

  /** With no goroutine alive, the counters balance exactly. */
  lemma CountersBalance(r: Control)
    requires TallyExact(r) && r.gs == map[]
    ensures r.tally.delivered == r.tally.succeeded
    ensures r.tally.lateness == r.tally.succeeded + r.tally.failed - r.tally.skipped
    ensures r.tally.durations == r.tally.delivered + r.tally.undelivered
  {
    assert Of(r.gs, Committed) == {} && Of(r.gs, Won) == {};
  }
}
