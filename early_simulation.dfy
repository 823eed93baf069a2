/**
 * The earlier hatchery simulation (`components/Simulation.tsx`). The tick has
 * the same phases as the later variant, under older rules: protected agents
 * are invisible to every query and take part in nothing but wandering, a
 * contact can only kill the visiting agent, no team wipe-out ends the game,
 * and the final duel is judged on the finalists' distance before their step.
 * The rules the two variants share are those of `RCopSimulation` and `Arena`.
 */
module EarlySimulation {
  import opened Lists
  import opened Arena
  import opened Wrappers
  import R = RCopSimulation

  // ---------------------------------------------------------------------
  // movement

  /** `findNearbyAgents`: another agent within `radius`, and not protected. */
  function Sensed(a: Agent, radius: real): Agent -> bool
  {
    Both(R.Unprotected(), R.Near(a, radius))
  }

  /** One agent's move: a protected agent only wanders; any other heads for the nearest drug in range,
      failing that chases or flees the last provoking agent it senses, failing that wanders. Then it
      steps and is clamped into the arena. */
  function Move(a: Agent, s: seq<Agent>, ds: seq<Drug>, b: Bounds, now: int, n: Noise,
                unit: (real, real) -> (real, real)): (r: Agent)
    ensures R.Relocated(a, r)
    ensures Roomy(b) ==> Inside(r, b)
  {
    var steered :=
      if a.protected then Wander(a, b, now, n, unit)
      else
        match NearestDrug(a.x, a.y, ds)
        case Some(k) => SteerToDrug(a, ds[k], unit)
        case None =>
          var near := Filter(s, Sensed(a, SenseRadius));
          match LastMatch(near, R.Provokes(a, now))
          case Some(j) => Steer(a, near[j], PowerDiff(a.power, near[j].power) < 0.0, unit)
          case None => Wander(a, b, now, n, unit);
    FinishMove(steered, b)
  }

  /** A protected agent wanders whatever drugs and agents are around. */
  lemma ProtectedOnlyWanders(a: Agent, s: seq<Agent>, ds: seq<Drug>, b: Bounds, now: int, n: Noise,
                             unit: (real, real) -> (real, real))
    requires a.protected
    ensures Move(a, s, ds, b, now, n, unit) == FinishMove(Wander(a, b, now, n, unit), b)
  {
  }

  /** Protected agents are invisible to a moving agent: dropping them from the list changes no move. */
  lemma ProtectedUnseen(a: Agent, s: seq<Agent>, ds: seq<Drug>, b: Bounds, now: int, n: Noise,
                        unit: (real, real) -> (real, real))
    ensures Move(a, Filter(s, R.Unprotected()), ds, b, now, n, unit) == Move(a, s, ds, b, now, n, unit)
  {
    var u := Filter(s, R.Unprotected());
    FilterTwice(s, R.Unprotected(), Sensed(a, SenseRadius));
    FilterExt(s, Both(R.Unprotected(), Sensed(a, SenseRadius)), Sensed(a, SenseRadius));
    assert Filter(u, Sensed(a, SenseRadius)) == Filter(s, Sensed(a, SenseRadius));
  }

  /** With no drug in range an unprotected agent reacts to the last provoking agent it senses, an
      unprotected one: it chases a weaker one and flees a stronger one. */
  lemma ChaseWeakerFleeStronger(a: Agent, s: seq<Agent>, ds: seq<Drug>, b: Bounds, now: int, n: Noise,
                                unit: (real, real) -> (real, real))
    requires !a.protected && NearestDrug(a.x, a.y, ds).None?
    requires LastMatch(Filter(s, Sensed(a, SenseRadius)), R.Provokes(a, now)).Some?
    ensures var near := Filter(s, Sensed(a, SenseRadius));
      var o := near[LastMatch(near, R.Provokes(a, now)).value];
      o.id != a.id && !o.protected && Within(a.x, a.y, o.x, o.y, SenseRadius) &&
      Move(a, s, ds, b, now, n, unit) == FinishMove(Steer(a, o, o.power < a.power, unit), b)
  {
    var near := Filter(s, Sensed(a, SenseRadius));
    var o := near[LastMatch(near, R.Provokes(a, now)).value];
    assert Sensed(a, SenseRadius)(o);
    assert R.Provokes(a, now)(o);
    assert a.power > 0.0 && o.power > 0.0;
  }

  /** The movement pass over the first `k` agents; each sees the others as already moved. */
  function MovePass(s: seq<Agent>, k: nat, ds: seq<Drug>, b: Bounds, battle: Battle, now: int,
                    noise: int -> Noise, unit: (real, real) -> (real, real)): (r: seq<Agent>)
    requires k <= |s|
    ensures |r| == |s|
    ensures forall m :: 0 <= m < |s| ==> R.Relocated(s[m], r[m])
    ensures forall m :: k <= m < |s| ==> r[m] == s[m]
    ensures Roomy(b) ==> forall m :: 0 <= m < k && !R.InDuel(battle, s[m]) ==> Inside(r[m], b)
  {
    if k == 0 then s
    else
      var c := MovePass(s, k - 1, ds, b, battle, now, noise, unit);
      if R.InDuel(battle, c[k - 1]) then c
      else c[k - 1 := Move(c[k - 1], c, ds, b, now, noise(c[k - 1].id), unit)]
  }

  // ---------------------------------------------------------------------
  // drugs

  /** The agents a drug acts on: unprotected ones within its radius. */
  function Reached(d: Drug): Agent -> bool
  {
    Both(R.Unprotected(), R.InRadius(d))
  }

  /** The drug's effect when both teams meet at it: +5 power and a 2 s truce for those it reaches. */
  function Treat(d: Drug, now: int): Agent -> Agent
  {
    (a: Agent) => if Reached(d)(a) then a.(power := a.power + PowerGainOnDrug, truceUntil := now + TruceDuration) else a
  }

  /** One drug point: both teams among the agents it reaches make a truce and use it up; one team alone
      is poisoned once it has expired, which also uses it up. */
  function DrugStep(st: R.DrugState, d: Drug, now: int): (r: R.DrugState)
    ensures r.used == st.used || r.used == st.used + [d.id]
  {
    var reached := Filter(st.agents, Reached(d));
    if |reached| == 0 then st
    else if R.BothTeamsIn(reached) then
      st.(agents := Map(st.agents, Treat(d, now)), used := st.used + [d.id], encounter := true)
    else if Expired(d, now) then
      st.(agents := RemoveEach(st.agents, reached), used := st.used + [d.id], marks := st.marks + Map(reached, MarkAt(now)))
    else st
  }

  /** The drug pass over `ds`, in order. */
  function DrugPass(st: R.DrugState, ds: seq<Drug>, now: int): (r: R.DrugState)
  {
    if |ds| == 0 then st else DrugStep(DrugPass(st, ds[..|ds| - 1], now), ds[|ds| - 1], now)
  }

  /** Both teams reached: every unprotected agent in the radius grows by 5 and is in truce for 2 s;
      nobody else changes. */
  lemma DrugTruce(st: R.DrugState, d: Drug, now: int)
    requires R.BothTeamsIn(Filter(st.agents, Reached(d)))
    ensures var r := DrugStep(st, d, now);
      r.encounter && r.used == st.used + [d.id] && |r.agents| == |st.agents| &&
      forall k :: 0 <= k < |st.agents| ==>
        r.agents[k] == if !st.agents[k].protected && R.InRadius(d)(st.agents[k])
                       then st.agents[k].(power := st.agents[k].power + 5.0, truceUntil := now + 2000)
                       else st.agents[k]
  {
    assert |Filter(st.agents, Reached(d))| > 0 by {
      assert |TeamOf(Filter(st.agents, Reached(d)), Reindeer)| > 0;
    }
  }

  /** An expired drug reaching one team kills exactly the agents it reaches, keeping the order of the rest. */
  lemma DrugPoison(st: R.DrugState, d: Drug, now: int)
    requires UniqueIds(st.agents) && Expired(d, now) && !R.BothTeamsIn(Filter(st.agents, Reached(d)))
    ensures DrugStep(st, d, now).agents == Filter(st.agents, Not(Reached(d)))
  {
    RemovePicked(st.agents, Reached(d));
  }

  /** A drug never removes or changes a protected agent. */
  lemma DrugSparesProtected(st: R.DrugState, d: Drug, now: int)
    requires UniqueIds(st.agents)
    ensures forall k :: 0 <= k < |st.agents| && st.agents[k].protected ==> st.agents[k] in DrugStep(st, d, now).agents
  {
    var r := DrugStep(st, d, now);
    var reached := Filter(st.agents, Reached(d));
    if |reached| > 0 && !R.BothTeamsIn(reached) && Expired(d, now) {
      DrugPoison(st, d, now);
      forall k | 0 <= k < |st.agents| && st.agents[k].protected ensures st.agents[k] in r.agents {
        FilterKeeps(st.agents, Not(Reached(d)), st.agents[k]);
      }
    } else if |reached| > 0 && R.BothTeamsIn(reached) {
      forall k | 0 <= k < |st.agents| && st.agents[k].protected ensures st.agents[k] in r.agents {
        assert r.agents[k] == st.agents[k];
      }
    }
  }

  /** The drug pass keeps every survivor's history, distinct ids and positive powers. */
  lemma {:induction false} DrugPassEvolves(st: R.DrugState, ds: seq<Drug>, now: int)
    requires UniqueIds(st.agents) && PowersPositive(st.agents)
    ensures var r := DrugPass(st, ds, now);
      Evolves(st.agents, r.agents) && UniqueIds(r.agents) && PowersPositive(r.agents)
  {
    if |ds| == 0 {
      GrownEvolves(st.agents, st.agents);
    } else {
      var p := DrugPass(st, ds[..|ds| - 1], now);
      DrugPassEvolves(st, ds[..|ds| - 1], now);
      var d := ds[|ds| - 1];
      var r := DrugStep(p, d, now);
      var reached := Filter(p.agents, Reached(d));
      if |reached| > 0 && R.BothTeamsIn(reached) {
        assert Grown(p.agents, r.agents);
        GrownEvolves(p.agents, r.agents);
        GrownUnique(p.agents, r.agents);
      } else if |reached| > 0 && Expired(d, now) {
        DrugPoison(p, d, now);
        GrownEvolves(p.agents, p.agents);
        EvolvesFilter(p.agents, p.agents, Not(Reached(d)));
        UniqueFilter(p.agents, Not(Reached(d)));
      } else {
        GrownEvolves(p.agents, p.agents);
      }
      EvolvesTransitive(st.agents, p.agents, r.agents);
      EvolvesPositive(st.agents, r.agents);
    }
  }

  // ---------------------------------------------------------------------
  // close contact

  /** What a visit's contact can do: nothing at all (skipped), nothing but count as an encounter,
      kill the visiting agent, or let both grow. */
  datatype Clash = Ignored | Unmoved | VisitorDies(gain: real) | BothGrow

  /** The killer takes half of the loser's power, in either team. */
  const KillShare: real := 0.5

  /** What happens when agent `a`, on its visit, touches `o`; the acting agent's team sets the threshold. */
  function Contact(a: Agent, o: Agent, now: int): (r: Clash)
    ensures r == Ignored <==> R.TruceSkips(a, o, now) || a.protected || o.protected
    ensures r.VisitorDies? ==> !a.protected && o.power > a.power && r.gain == a.power * KillShare
  {
    if R.TruceSkips(a, o, now) || a.protected || o.protected then Ignored
    else
      var d := PowerDiff(a.power, o.power);
      if Abs(d) > Aggressiveness(a.team) then
        (if d > 0.0 then VisitorDies(a.power * KillShare) else Unmoved)
      else if a.team != o.team && Abs(d) <= GrowthThreshold then BothGrow
      else Unmoved
  }

  /** Only the visitor can die, and exactly when the other is stronger beyond the threshold, in either
      team; within the threshold two teams always grow together (every threshold is below 0.4) and one
      team leaves itself alone. */
  lemma ContactRules(a: Agent, o: Agent, now: int)
    requires a.power > 0.0 && o.power > 0.0
    requires !R.TruceSkips(a, o, now) && !a.protected && !o.protected
    ensures Contact(a, o, now).VisitorDies? <==> o.power > a.power && Abs(PowerDiff(a.power, o.power)) > Aggressiveness(a.team)
    ensures a.power >= o.power ==>
      (Contact(a, o, now) == Unmoved || (Contact(a, o, now) == BothGrow && a.team != o.team))
    ensures Abs(PowerDiff(a.power, o.power)) <= Aggressiveness(a.team) ==>
      Contact(a, o, now) == (if a.team != o.team then BothGrow else Unmoved)
  {
  }

  /** Contact range as the visit's agent query sees it: another, unprotected agent within 12 (`ContactRadius`). */
  predicate Feels(a: Agent, o: Agent)
  {
    Sensed(a, ContactRadius)(o)
  }

  /** A meeting of two teams that is not skipped: that is what restarts the shrink clock. */
  predicate Encounters(a: Agent, o: Agent, now: int)
  {
    a.team != o.team && Contact(a, o, now) != Ignored
  }

  /** Agent `i`, on its visit, meets agent `j` (the visit's list is the agents it senses within contact range). */
  function Meet(st: R.PassState, i: nat, j: nat, now: int): (r: R.PassState)
    requires i < |st.agents| && j < |st.agents|
    ensures |r.agents| == |st.agents|
    ensures r.encounter == (st.encounter ||
      (Feels(st.agents[i], st.agents[j]) && st.agents[j].id !in st.removed && Encounters(st.agents[i], st.agents[j], now)))
  {
    var a := st.agents[i];
    var o := st.agents[j];
    if !Feels(a, o) || o.id in st.removed then st
    else
      var s := st.(encounter := st.encounter || Encounters(a, o, now));
      match Contact(a, o, now)
      case VisitorDies(g) =>
        s.(agents := s.agents[j := o.(power := o.power + g)], removed := s.removed + [a.id], marks := s.marks + [MarkAt(now)(a)])
      case BothGrow => s.(agents := R.Boost(s.agents, i, j))
      case _ => s
  }

  /** A meeting can only ever remove the visiting agent, and only when the other is sensed, not yet marked
      and stronger beyond the visitor's threshold. */
  lemma OnlyVisitorDies(st: R.PassState, i: nat, j: nat, now: int)
    requires i < |st.agents| && j < |st.agents|
    ensures var r := Meet(st, i, j, now);
      r.removed == st.removed || r.removed == st.removed + [st.agents[i].id]
    ensures var r := Meet(st, i, j, now);
      r.removed != st.removed <==>
        Feels(st.agents[i], st.agents[j]) && st.agents[j].id !in st.removed &&
        Contact(st.agents[i], st.agents[j], now).VisitorDies?
  {
  }

  /** Agent `i`'s visit to the first `n` agents, the same shape as `RCopSimulation.Visit` over
      this variant's `Meet`. */
  function Visit(st: R.PassState, i: nat, n: nat, now: int): (r: R.PassState)
    requires i < |st.agents| && n <= |st.agents|
    ensures |r.agents| == |st.agents|
    ensures st.encounter ==> r.encounter
  {
    if n == 0 then st
    else
      var s := Visit(st, i, n - 1, now);
      Meet(s, i, n - 1, now)
  }

  /** The pass over the first `m` agents; one already marked for removal does not act. The same
      shape as `RCopSimulation.Round` over this variant's `Visit`. */
  function Round(st: R.PassState, m: nat, now: int): (r: R.PassState)
    requires m <= |st.agents|
    ensures |r.agents| == |st.agents|
    ensures st.encounter ==> r.encounter
  {
    if m == 0 then st
    else
      var s := Round(st, m - 1, now);
      if s.agents[m - 1].id in s.removed then s else Visit(s, m - 1, |s.agents|, now)
  }

  /** A meeting changes only powers, and only upwards. */
  lemma MeetGrows(st: R.PassState, i: nat, j: nat, now: int)
    requires i < |st.agents| && j < |st.agents|
    ensures R.PowersOnly(st.agents, Meet(st, i, j, now).agents)
  {
    var a := st.agents[i];
    var o := st.agents[j];
    if Feels(a, o) && o.id !in st.removed {
      match Contact(a, o, now)
      case VisitorDies(g) => assert a.power > 0.0;
      case _ =>
    }
  }

  lemma {:induction false} VisitGrows(st: R.PassState, i: nat, n: nat, now: int)
    requires i < |st.agents| && n <= |st.agents|
    ensures R.PowersOnly(st.agents, Visit(st, i, n, now).agents)
  {
    if n > 0 {
      var s := Visit(st, i, n - 1, now);
      VisitGrows(st, i, n - 1, now);
      MeetGrows(s, i, n - 1, now);
      assert Visit(st, i, n, now) == Meet(s, i, n - 1, now);
      R.PowersOnlyTransitive(st.agents, s.agents, Meet(s, i, n - 1, now).agents);
    }
  }

  /** During the whole pass only powers change, and never downwards. */
  lemma {:induction false} RoundGrows(st: R.PassState, m: nat, now: int)
    requires m <= |st.agents|
    ensures R.PowersOnly(st.agents, Round(st, m, now).agents)
  {
    if m > 0 {
      var s := Round(st, m - 1, now);
      RoundGrows(st, m - 1, now);
      if s.agents[m - 1].id !in s.removed {
        var v := Visit(s, m - 1, |s.agents|, now);
        VisitGrows(s, m - 1, |s.agents|, now);
        R.PowersOnlyTransitive(st.agents, s.agents, v.agents);
        assert Round(st, m, now) == v;
      }
    }
  }

  lemma MeetMarksUnprotected(st: R.PassState, i: nat, j: nat, now: int)
    requires i < |st.agents| && j < |st.agents|
    requires UniqueIds(st.agents) && R.MarksUnprotected(st)
    ensures R.MarksUnprotected(Meet(st, i, j, now))
  {
    var a := st.agents[i];
    var r := Meet(st, i, j, now);
    MeetGrows(st, i, j, now);
    if r.removed != st.removed {
      forall k | 0 <= k < |r.agents| && r.agents[k].id in r.removed ensures !r.agents[k].protected {
        assert r.agents[k] == st.agents[k].(power := r.agents[k].power);
        if r.agents[k].id !in st.removed && k != i {
          IdsDiffer(st.agents, k, i);
        }
      }
    }
  }

  lemma {:induction false} VisitMarksUnprotected(st: R.PassState, i: nat, n: nat, now: int)
    requires i < |st.agents| && n <= |st.agents|
    requires UniqueIds(st.agents) && R.MarksUnprotected(st)
    ensures R.MarksUnprotected(Visit(st, i, n, now))
  {
    if n > 0 {
      var s := Visit(st, i, n - 1, now);
      assert UniqueIds(s.agents) && R.MarksUnprotected(s) by {
        VisitMarksUnprotected(st, i, n - 1, now);
        VisitGrows(st, i, n - 1, now);
        R.PowersOnlyUnique(st.agents, s.agents);
      }
      MeetMarksUnprotected(s, i, n - 1, now);
    }
  }

  lemma RoundStep(st: R.PassState, m: nat, now: int)
    requires 0 < m <= |st.agents|
    requires UniqueIds(st.agents) && R.MarksUnprotected(Round(st, m - 1, now))
    ensures R.MarksUnprotected(Round(st, m, now))
  {
    var s := Round(st, m - 1, now);
    RoundGrows(st, m - 1, now);
    R.PowersOnlyInPlace(st.agents, s.agents);
    GrownUnique(st.agents, s.agents);
    if s.agents[m - 1].id !in s.removed {
      VisitMarksUnprotected(s, m - 1, |s.agents|, now);
    }
  }

  lemma {:induction false} RoundMarksUnprotected(st: R.PassState, m: nat, now: int)
    requires m <= |st.agents|
    requires UniqueIds(st.agents) && R.MarksUnprotected(st)
    ensures R.MarksUnprotected(Round(st, m, now))
  {
    if m > 0 {
      RoundMarksUnprotected(st, m - 1, now);
      RoundStep(st, m, now);
    }
  }

  /** The whole contact pass: powers only grow, ids stay distinct, and no protected agent is removed. */
  lemma ContactPassSparesProtected(s: seq<Agent>, marks: seq<Mark>, now: int)
    requires UniqueIds(s) && PowersPositive(s)
    ensures var st := Round(R.PassState(s, [], false, marks), |s|, now);
      var r := Filter(st.agents, R.Unmarked(st.removed));
      Evolves(s, r) && UniqueIds(r) && PowersPositive(r) &&
      forall k :: 0 <= k < |s| && s[k].protected ==> st.agents[k] in r
  {
    var st := Round(R.PassState(s, [], false, marks), |s|, now);
    RoundMarksUnprotected(R.PassState(s, [], false, marks), |s|, now);
    RoundGrows(R.PassState(s, [], false, marks), |s|, now);
    R.PowersOnlyInPlace(s, st.agents);
    GrownEvolves(s, st.agents);
    GrownUnique(s, st.agents);
    EvolvesFilter(s, st.agents, R.Unmarked(st.removed));
    UniqueFilter(st.agents, R.Unmarked(st.removed));
    var r := Filter(st.agents, R.Unmarked(st.removed));
    EvolvesPositive(s, r);
    forall k | 0 <= k < |s| && s[k].protected ensures st.agents[k] in r {
      assert st.agents[k] == s[k].(power := st.agents[k].power);
      FilterKeeps(st.agents, R.Unmarked(st.removed), st.agents[k]);
    }
  }

  // ---------------------------------------------------------------------
  // the duel

  /** Contact distance of the duel: the two agents' sizes. */
  const CollisionDistance: real := AgentSize * 2.0

  /** The duel's decision for reindeer `a0` and rabbit `a1`, on their distance before the step: none while
      apart; in reach, the rabbit wins beyond +0.25, the reindeer beyond -0.25, and both survive otherwise. */
  function Judge(a0: Agent, a1: Agent): (r: Option<Ending>)
    ensures r.Some? <==> DistSq(a0.x, a0.y, a1.x, a1.y) <= CollisionDistance * CollisionDistance
  {
    if DistSq(a0.x, a0.y, a1.x, a1.y) <= CollisionDistance * CollisionDistance then
      var d := PowerDiff(a0.power, a1.power);
      Some(if d > FinalBattleThreshold then EndingA else if d < -FinalBattleThreshold then EndingC else EndingB)
    else None
  }

  /** In reach, the stronger finalist wins when the gap exceeds 0.25 and both survive otherwise. */
  lemma JudgeDecides(a0: Agent, a1: Agent)
    requires a0.power > 0.0 && a1.power > 0.0
    requires DistSq(a0.x, a0.y, a1.x, a1.y) <= CollisionDistance * CollisionDistance
    ensures Judge(a0, a1) == Some(EndingA) <==> Abs(PowerDiff(a0.power, a1.power)) > 0.25 && a1.power > a0.power
    ensures Judge(a0, a1) == Some(EndingC) <==> Abs(PowerDiff(a0.power, a1.power)) > 0.25 && a0.power > a1.power
    ensures Judge(a0, a1) == Some(EndingB) <==> Abs(PowerDiff(a0.power, a1.power)) <= 0.25
  {
  }

  /** Unlike the later rules, the survival ending is reached: two equal finalists in reach both survive. */
  lemma SurvivalReached(a0: Agent, a1: Agent)
    requires a0.power == a1.power > 0.0 && a0.x == a1.x && a0.y == a1.y
    ensures Judge(a0, a1) == Some(EndingB)
  {
  }

  /** The decision looks at positions and powers only. */
  lemma JudgeIgnoresProtection(a0: Agent, a1: Agent)
    ensures Judge(a0.(protected := false), a1.(protected := false)) == Judge(a0, a1)
  {
  }

  /** The finalists head for each other at the top speed (keeping their old velocity when they coincide)
      and take one step, with no clamp into the arena. */
  function CloseIn(s: seq<Agent>, i0: nat, i1: nat, unit: (real, real) -> (real, real)): (r: seq<Agent>)
    requires i0 < |s| && i1 < |s| && i0 != i1
    ensures InPlace(s, r) && forall k :: 0 <= k < |s| ==> r[k].power == s[k].power
  {
    var a0 := s[i0];
    var a1 := s[i1];
    var dx0 := a1.x - a0.x;
    var dy0 := a1.y - a0.y;
    var apart := dx0 * dx0 + dy0 * dy0 > 0.0;
    var v0 := if apart then Toward(dx0, dy0, R.DuelSpeed, unit) else (a0.vx, a0.vy);
    var v1 := if apart then Toward(-dx0, -dy0, R.DuelSpeed, unit) else (a1.vx, a1.vy);
    s[i0 := a0.(vx := v0.0, vy := v0.1, x := a0.x + v0.0, y := a0.y + v0.1)]
     [i1 := a1.(vx := v1.0, vy := v1.1, x := a1.x + v1.0, y := a1.y + v1.1)]
  }

  /** `processFinalBattle` for the reindeer at `i0` and the rabbit at `i1`: both step, then the decision on
      the distance before the step removes the loser (nobody, on the survival ending). */
  method FinalBattle(s: seq<Agent>, i0: nat, i1: nat, unit: (real, real) -> (real, real))
    returns (r: seq<Agent>, ending: Option<Ending>)
    requires i0 < |s| && i1 < |s| && UniqueIds(s) && PowersPositive(s)
    requires s[i0].team == Reindeer && s[i1].team == Rabbit
    requires |TeamOf(s, Reindeer)| == 1 && |TeamOf(s, Rabbit)| == 1
    ensures ending == Judge(s[i0], s[i1])
    ensures Evolves(s, r) && UniqueIds(r) && PowersPositive(r)
    ensures ending.None? || ending == Some(EndingB) ==> r == CloseIn(s, i0, i1, unit)
    ensures ending == Some(EndingA) ==> r == Filter(CloseIn(s, i0, i1, unit), NotId(s[i0].id))
    ensures ending == Some(EndingC) ==> r == Filter(CloseIn(s, i0, i1, unit), NotId(s[i1].id))
    ensures ending.None? ==> InPlace(s, r) && |TeamOf(r, Reindeer)| == 1 && |TeamOf(r, Rabbit)| == 1
    ensures ending.Some? ==> Decided(r, ending.value)
  {
    var moved := CloseIn(s, i0, i1, unit);
    InPlaceKeeps(s, moved);
    SameTeamsSizes(s, moved, Reindeer);
    SameTeamsSizes(s, moved, Rabbit);
    ending := Judge(s[i0], s[i1]);
    if ending == Some(EndingA) {
      LastOfTeamFalls(moved, i0);
      r := Filter(moved, NotId(s[i0].id));
      EvolvesTransitive(s, moved, r);
    } else if ending == Some(EndingC) {
      LastOfTeamFalls(moved, i1);
      r := Filter(moved, NotId(s[i1].id));
      EvolvesTransitive(s, moved, r);
    } else {
      r := moved;
    }
  }

  /** An agent list updated in place keeps everyone unprotected; with both teams still more than one
      strong, nobody is due for protection either. */
  lemma StaysUnshielded(s: seq<Agent>, r: seq<Agent>)
    requires InPlace(s, r) && forall k :: 0 <= k < |s| ==> !s[k].protected
    requires !Lone(r, Reindeer) && !Lone(r, Rabbit)
    ensures forall k :: 0 <= k < |r| ==> !r[k].protected && !Lone(r, r[k].team)
  {
    forall k | 0 <= k < |r| ensures !r[k].protected && !Lone(r, r[k].team) {
      assert r[k].protected == s[k].protected;
      if r[k].team == Reindeer { } else { }
    }
  }

  /** The finalists: everyone loses protection, and `i0` and `i1` are the last reindeer and the last
      rabbit of the list. */
  method Finalists(s: seq<Agent>) returns (shielded: seq<Agent>, i0: nat, i1: nat)
    requires UniqueIds(s) && PowersPositive(s)
    requires |TeamOf(s, Reindeer)| == 1 && |TeamOf(s, Rabbit)| == 1
    ensures shielded == Map(s, R.Shield(false, false)) == R.Unshielded(s)
    ensures i0 == R.Finalist(shielded, Reindeer) && i1 == R.Finalist(shielded, Rabbit)
    ensures Evolves(s, shielded) && UniqueIds(shielded) && PowersPositive(shielded)
    ensures forall k :: 0 <= k < |shielded| ==> !shielded[k].protected
    ensures |TeamOf(shielded, Reindeer)| == 1 && |TeamOf(shielded, Rabbit)| == 1
    ensures i0 < |shielded| && i1 < |shielded| && shielded[i0].team == Reindeer && shielded[i1].team == Rabbit
    ensures shielded[i0].id == TeamOf(s, Reindeer)[0].id && shielded[i1].id == TeamOf(s, Rabbit)[0].id
    ensures Judge(shielded[i0], shielded[i1]) == Judge(TeamOf(s, Reindeer)[0], TeamOf(s, Rabbit)[0])
  {
    assert !Lone(s, Reindeer) && !Lone(s, Rabbit);
    shielded := Map(s, R.Shield(false, false));
    assert forall k :: 0 <= k < |shielded| ==> !shielded[k].protected;
    R.ShieldKeeps(s);
    FilterMap(s, R.Shield(false, false), OnTeam(Reindeer));
    FilterMap(s, R.Shield(false, false), OnTeam(Rabbit));
    JudgeIgnoresProtection(TeamOf(s, Reindeer)[0], TeamOf(s, Rabbit)[0]);
    i0 := R.Finalist(shielded, Reindeer);
    i1 := R.Finalist(shielded, Rabbit);
  }

  /** `processFinalBattle` between the unprotected finalists of a one-against-one arena: both step toward
      each other; apart, the duel is recorded unless one is under way and the game goes on; in reach,
      the loser is removed (nobody, on the survival ending) and the game ends with no duel. */
  function DuelOutcome(s: seq<Agent>, marks: seq<Mark>, battle: Battle, unit: (real, real) -> (real, real)): R.EndState
    requires |TeamOf(s, Reindeer)| == 1 && |TeamOf(s, Rabbit)| == 1
  {
    var u := R.Unshielded(s);
    var i0 := R.Finalist(u, Reindeer);
    var i1 := R.Finalist(u, Rabbit);
    var moved := CloseIn(u, i0, i1, unit);
    match Judge(u[i0], u[i1])
    case None => R.EndState(moved, marks, if battle == NoBattle then Duel(u[i0].id, u[i1].id) else battle, None)
    case Some(EndingA) => R.EndState(Filter(moved, NotId(u[i0].id)), marks, NoBattle, Some(EndingA))
    case Some(EndingC) => R.EndState(Filter(moved, NotId(u[i1].id)), marks, NoBattle, Some(EndingC))
    case Some(EndingB) => R.EndState(moved, marks, NoBattle, Some(EndingB))
  }

  /** The outcome of the final battle, from what `processFinalBattle` returns. */
  lemma DuelOutcomeIs(s: seq<Agent>, marks: seq<Mark>, battle: Battle, unit: (real, real) -> (real, real),
                      i0: nat, i1: nat, agents: seq<Agent>, ending: Option<Ending>)
    requires |TeamOf(s, Reindeer)| == 1 && |TeamOf(s, Rabbit)| == 1
    requires i0 == R.Finalist(R.Unshielded(s), Reindeer) && i1 == R.Finalist(R.Unshielded(s), Rabbit)
    requires ending == Judge(R.Unshielded(s)[i0], R.Unshielded(s)[i1])
    requires ending.None? || ending == Some(EndingB) ==> agents == CloseIn(R.Unshielded(s), i0, i1, unit)
    requires ending == Some(EndingA) ==> agents == Filter(CloseIn(R.Unshielded(s), i0, i1, unit), NotId(R.Unshielded(s)[i0].id))
    requires ending == Some(EndingC) ==> agents == Filter(CloseIn(R.Unshielded(s), i0, i1, unit), NotId(R.Unshielded(s)[i1].id))
    ensures var u := R.Unshielded(s);
      DuelOutcome(s, marks, battle, unit) ==
      if ending.None? then R.EndState(agents, marks, if battle == NoBattle then Duel(u[i0].id, u[i1].id) else battle, None)
      else R.EndState(agents, marks, NoBattle, ending)
  {
  }

  /** `checkEndgame` of the early rules: one of each left fight the final battle; otherwise exactly the
      lone survivors are protected and no duel is under way. */
  function EndOf(s: seq<Agent>, marks: seq<Mark>, battle: Battle, unit: (real, real) -> (real, real)): R.EndState
  {
    if |TeamOf(s, Reindeer)| == 1 && |TeamOf(s, Rabbit)| == 1 then DuelOutcome(s, marks, battle, unit)
    else R.EndState(Map(s, R.Shield(Lone(s, Reindeer), Lone(s, Rabbit))), marks, NoBattle, None)
  }

  /** One agent left on each side: both lose protection, the duel starts unless it has, and the final
      battle runs between the reindeer and the rabbit. */
  method Finale(s: seq<Agent>, marks: seq<Mark>, battle: Battle, unit: (real, real) -> (real, real))
    returns (r: R.EndState)
    requires UniqueIds(s) && PowersPositive(s)
    requires |TeamOf(s, Reindeer)| == 1 && |TeamOf(s, Rabbit)| == 1
    ensures Evolves(s, r.agents) && UniqueIds(r.agents) && PowersPositive(r.agents) && r.marks == marks
    ensures r.ending == Judge(TeamOf(s, Reindeer)[0], TeamOf(s, Rabbit)[0])
    ensures r.ending.Some? ==> r.battle == NoBattle && Decided(r.agents, r.ending.value)
    ensures r.ending.None? ==>
      (r.battle == (if battle == NoBattle then Duel(TeamOf(s, Reindeer)[0].id, TeamOf(s, Rabbit)[0].id) else battle) &&
       forall k :: 0 <= k < |r.agents| ==> !r.agents[k].protected && !Lone(r.agents, r.agents[k].team))
    ensures r == DuelOutcome(s, marks, battle, unit)
  {
    var shielded, i0, i1 := Finalists(s);
    var duel := if battle == NoBattle then Duel(shielded[i0].id, shielded[i1].id) else battle;
    var agents, ending := FinalBattle(shielded, i0, i1, unit);
    EvolvesTransitive(s, shielded, agents);
    if ending.None? {
      assert !Lone(agents, Reindeer) && !Lone(agents, Rabbit);
      StaysUnshielded(shielded, agents);
      r := R.EndState(agents, marks, duel, None);
    } else {
      r := R.EndState(agents, marks, NoBattle, ending);
    }
    DuelOutcomeIs(s, marks, battle, unit, i0, i1, agents, ending);
  }

  /** `checkEndgame` on the agent list: the lone survivor rule, then the final battle when one of each is
      left; there is no wipe-out ending, so any other count goes on with no duel. */
  method Endgame(s: seq<Agent>, marks: seq<Mark>, battle: Battle, unit: (real, real) -> (real, real))
    returns (r: R.EndState)
    requires UniqueIds(s) && PowersPositive(s)
    ensures Evolves(s, r.agents) && UniqueIds(r.agents) && PowersPositive(r.agents) && r.marks == marks
    ensures r.ending.Some? ==> r.battle == NoBattle && Decided(r.agents, r.ending.value)
    ensures r.ending.None? ==> forall k :: 0 <= k < |r.agents| ==> (r.agents[k].protected <==> Lone(r.agents, r.agents[k].team))
    ensures !(|TeamOf(s, Reindeer)| == 1 && |TeamOf(s, Rabbit)| == 1) ==>
      r == R.EndState(Map(s, R.Shield(Lone(s, Reindeer), Lone(s, Rabbit))), marks, NoBattle, None)
    ensures |TeamOf(s, Reindeer)| == 1 && |TeamOf(s, Rabbit)| == 1 ==>
      r.ending == Judge(TeamOf(s, Reindeer)[0], TeamOf(s, Rabbit)[0])
    ensures r == EndOf(s, marks, battle, unit)
  {
    if |TeamOf(s, Reindeer)| == 1 && |TeamOf(s, Rabbit)| == 1 {
      r := Finale(s, marks, battle, unit);
    } else {
      R.ShieldKeeps(s);
      r := R.EndState(Map(s, R.Shield(Lone(s, Reindeer), Lone(s, Rabbit))), marks, NoBattle, None);
    }
  }

  // ---------------------------------------------------------------------
  // the initial agents

  /** The initial agent number `k` from five draws in [0, 1): position, power, wander target. */
  function Spawn(k: nat, draws: seq<real>, now: int): (a: Agent)
    requires k < 2 * PerTeam && |draws| >= 10 * PerTeam
  {
    var r := draws[5 * k .. 5 * k + 5];
    // 360 is 30% of the canvas width, 790 is 70% of it less 50, 700 is the canvas height less 100
    var x := if k < PerTeam then r[0] * 360.0 + 50.0 else r[0] * 360.0 + 790.0;
    var y := r[1] * 700.0 + 50.0;
    var team := if k < PerTeam then Reindeer else Rabbit;
    Agent(k, x, y, team, 1.0 + r[2] * 2.0, 0.0, 0.0, false, 0, x + (r[3] - 0.5) * 200.0, y + (r[4] - 0.5) * 200.0, now)
  }

  /** The 400 initial agents, reindeer first, spawned as `RCopSimulation.Population` does. */
  function Population(draws: seq<real>, now: int): (r: seq<Agent>)
    requires |draws| >= 10 * PerTeam
    ensures |r| == 2 * PerTeam && forall k :: 0 <= k < |r| ==> r[k] == Spawn(k, draws, now)
  {
    seq(2 * PerTeam, k requires 0 <= k < 2 * PerTeam => Spawn(k, draws, now))
  }

  /** Reindeer (ids 0-199) start on the left, rabbits (ids 200-399) on the right, all with power in
      [1, 3), unprotected, out of truce, at rest and inside the arena. */
  lemma SpawnPlacement(k: nat, draws: seq<real>, now: int)
    requires k < 2 * PerTeam && R.Draws(draws)
    ensures var a := Spawn(k, draws, now);
      a.id == k && !a.protected && a.truceUntil == 0 && a.vx == 0.0 && a.vy == 0.0 &&
      50.0 <= a.y < 750.0 && Inside(a, FullArena) && 1.0 <= a.power < 3.0 &&
      (k < PerTeam ==> a.team == Reindeer && 50.0 <= a.x < 410.0) &&
      (k >= PerTeam ==> a.team == Rabbit && 790.0 <= a.x < 1150.0)
  {
    R.UnitDrawAt(draws, 5 * k);
    R.UnitDrawAt(draws, 5 * k + 1);
    R.UnitDrawAt(draws, 5 * k + 2);
    assert draws[5 * k .. 5 * k + 5][0] == draws[5 * k];
    assert draws[5 * k .. 5 * k + 5][1] == draws[5 * k + 1];
    assert draws[5 * k .. 5 * k + 5][2] == draws[5 * k + 2];
  }

  // ---------------------------------------------------------------------
  // the passes as loops over the agent list

  /** `updateAgentMovement` for agent `a` among the agents `s`. */
  method MoveOne(a: Agent, s: seq<Agent>, ds: seq<Drug>, b: Bounds, now: int, n: Noise,
                 unit: (real, real) -> (real, real)) returns (r: Agent)
    ensures r == Move(a, s, ds, b, now, n, unit)
  {
    if a.protected {
      r := Wander(a, b, now, n, unit);
    } else {
      var nearest := FindNearestDrug(a.x, a.y, ds);
      if nearest.Some? {
        r := SteerToDrug(a, ds[nearest.value], unit);
      } else {
        var near := Filter(s, Sensed(a, SenseRadius));
        var target := ScanLastMatch(near, R.Provokes(a, now));
        if target.Some? {
          var o := near[target.value];
          r := Steer(a, o, PowerDiff(a.power, o.power) < 0.0, unit);
        } else {
          r := Wander(a, b, now, n, unit);
        }
      }
    }
    r := FinishMove(r, b);
  }

  /** One more agent's turn in the movement pass. */
  lemma MovePassStep(s: seq<Agent>, k: nat, ds: seq<Drug>, b: Bounds, battle: Battle, now: int,
                     noise: int -> Noise, unit: (real, real) -> (real, real))
    requires k < |s|
    ensures var c := MovePass(s, k, ds, b, battle, now, noise, unit);
      MovePass(s, k + 1, ds, b, battle, now, noise, unit)
        == if R.InDuel(battle, c[k]) then c else c[k := Move(c[k], c, ds, b, now, noise(c[k].id), unit)]
  {
  }

  /** The movement loop of the frame: every agent but the duel's finalists moves, in list order, and
      sees the agents before it already moved. */
  method MoveEveryone(s: seq<Agent>, ds: seq<Drug>, b: Bounds, battle: Battle, now: int,
                      noise: int -> Noise, unit: (real, real) -> (real, real)) returns (r: seq<Agent>)
    ensures r == MovePass(s, |s|, ds, b, battle, now, noise, unit)
  {
    r := s;
    for k := 0 to |s|
      invariant r == MovePass(s, k, ds, b, battle, now, noise, unit)
    {
      MovePassStep(s, k, ds, b, battle, now, noise, unit);
      if !R.InDuel(battle, r[k]) {
        var a := MoveOne(r[k], r, ds, b, now, noise(r[k].id), unit);
        r := r[k := a];
      }
    }
  }

  /** An expired drug's victims, removed one at a time with a mark for each. */
  method Poison(s: seq<Agent>, reached: seq<Agent>, marks: seq<Mark>, now: int) returns (r: seq<Agent>, rmarks: seq<Mark>)
    ensures r == RemoveEach(s, reached)
    ensures rmarks == marks + Map(reached, MarkAt(now))
  {
    r, rmarks := s, marks;
    for m := 0 to |reached|
      invariant r == RemoveEach(s, reached[..m])
      invariant rmarks == marks + Map(reached[..m], MarkAt(now))
    {
      var a := reached[m];
      assert reached[..m + 1] == reached[..m] + [a];
      RemoveEachSnoc(s, reached[..m], a);
      MapAppend(reached[..m], [a], MarkAt(now));
      r := Filter(r, NotId(a.id));
      rmarks := rmarks + [Mark(a.x, a.y, now)];
    }
    assert reached[..|reached|] == reached;
  }

  /** The loop over the drug points. */
  method RunDrugs(s: seq<Agent>, ds: seq<Drug>, marks: seq<Mark>, now: int) returns (r: R.DrugState)
    ensures r == DrugPass(R.DrugState(s, [], false, marks), ds, now)
  {
    r := R.DrugState(s, [], false, marks);
    for k := 0 to |ds|
      invariant r == DrugPass(R.DrugState(s, [], false, marks), ds[..k], now)
    {
      assert ds[..k + 1][..k] == ds[..k];
      var d := ds[k];
      var reached := Filter(r.agents, Reached(d));
      if |reached| > 0 {
        if R.BothTeamsIn(reached) {
          r := r.(agents := Map(r.agents, Treat(d, now)), used := r.used + [d.id], encounter := true);
        } else if now - d.createdAt >= d.ttl {
          var survivors, newMarks := Poison(r.agents, reached, r.marks, now);
          r := r.(agents := survivors, used := r.used + [d.id], marks := newMarks);
        }
      }
    }
    assert ds[..|ds|] == ds;
  }

  /** Agent `i` meets agent `j`: the body of the inner loop of `processAgentInteractions`. */
  method MeetStep(st: R.PassState, i: nat, j: nat, now: int) returns (r: R.PassState)
    requires i < |st.agents| && j < |st.agents|
    ensures r == Meet(st, i, j, now)
  {
    var current, removed, encounter, ms := st.agents, st.removed, st.encounter, st.marks;
    var a := current[i];
    var o := current[j];
    if Feels(a, o) && o.id !in removed {
      encounter := encounter || Encounters(a, o, now);
      match Contact(a, o, now) {
        case VisitorDies(g) =>
          current := current[j := o.(power := o.power + g)];
          removed := removed + [a.id];
          ms := ms + [Mark(a.x, a.y, now)];
        case BothGrow =>
          current := current[i := a.(power := a.power + PowerGainOnContact)];
          current := current[j := current[j].(power := current[j].power + PowerGainOnContact)];
        case _ =>
      }
    }
    r := R.PassState(current, removed, encounter, ms);
  }

  /** Agent `i`'s visit: every agent it senses in contact range that is not yet marked, in list order.
      The same loop as `RCopSimulation.VisitAgent` over this variant's `Meet`. */
  method VisitAgent(st: R.PassState, i: nat, now: int) returns (r: R.PassState)
    requires i < |st.agents|
    ensures r == Visit(st, i, |st.agents|, now)
  {
    r := st;
    for j := 0 to |st.agents|
      invariant r == Visit(st, i, j, now)
    {
      r := MeetStep(r, i, j, now);
    }
  }

  /** The contact pass: every agent not yet marked for removal takes its visit. */
  method ContactPass(s: seq<Agent>, marks: seq<Mark>, now: int) returns (st: R.PassState)
    ensures st == Round(R.PassState(s, [], false, marks), |s|, now)
  {
    st := R.PassState(s, [], false, marks);
    for i := 0 to |s|
      invariant st == Round(R.PassState(s, [], false, marks), i, now)
    {
      if st.agents[i].id !in st.removed {
        st := VisitAgent(st, i, now);
      }
    }
  }

  // ---------------------------------------------------------------------
  // the simulation

  class Simulation {
    var agents: seq<Agent>
    var drugs: seq<Drug>
    var marks: seq<Mark>
    var mists: seq<Mist>
    var hearts: seq<Heart>
    var bounds: Bounds
    var lastEncounter: int
    var running: bool
    var ended: bool
    var ending: Option<Ending>
    var battle: Battle
    var lastTime: real

    /** Distinct ids, positive powers, a centred arena at least 200 wide, a running game is not over,
        and an ending, once set, says who is left. */
    predicate Valid()
      reads this
    {
      UniqueIds(agents) && PowersPositive(agents) && Centred(bounds) && Roomy(bounds) &&
      !(running && ended) && (ended <==> ending.Some?) &&
      (ending.Some? ==> Decided(agents, ending.value))
    }

    /** The mount: the agents are placed, nothing runs yet. */
    constructor (now: int, draws: seq<real>)
      requires R.Draws(draws)
      ensures Valid()
      ensures !running && !ended && ending.None? && battle == NoBattle && drugs == []
      ensures marks == [] && mists == [] && hearts == [] && bounds == FullArena && lastEncounter == now && lastTime == 0.0
      ensures agents == Population(draws, now)
    {
      drugs := [];
      marks := [];
      mists := [];
      hearts := [];
      running := false;
      ended := false;
      ending := None;
      battle := NoBattle;
      lastTime := 0.0;
      new;
      InitializeAgents(now, draws);
    }

    method InitializeAgents(now: int, draws: seq<real>)
      requires R.Draws(draws)
      modifies this`agents, this`lastEncounter, this`bounds
      ensures agents == Population(draws, now)
      ensures UniqueIds(agents) && PowersPositive(agents)
      ensures lastEncounter == now && bounds == FullArena
    {
      var created: seq<Agent> := [];
      for i := 0 to PerTeam
        invariant |created| == i && forall k :: 0 <= k < i ==> created[k] == Spawn(k, draws, now)
      {
        created := created + [Spawn(i, draws, now)];
      }
      for i := 0 to PerTeam
        invariant |created| == PerTeam + i && forall k :: 0 <= k < PerTeam + i ==> created[k] == Spawn(k, draws, now)
      {
        created := created + [Spawn(PerTeam + i, draws, now)];
      }
      forall k | 0 <= k < |created| ensures created[k].id == k && created[k].power > 0.0 {
        SpawnPlacement(k, draws, now);
      }
      assert created == Population(draws, now);
      agents := created;
      lastEncounter := now;
      bounds := FullArena;
    }

    /** `startSimulation`: fresh agents, the game running, no ending, no duel. */
    method Start(frameTime: real, now: int, draws: seq<real>)
      requires R.Draws(draws)
      modifies this
      ensures Valid() && running && !ended && battle == NoBattle && lastTime == frameTime
      ensures drugs == old(drugs) && agents == Population(draws, now)
      ensures bounds == FullArena && lastEncounter == now && ending == None
      ensures marks == old(marks) && mists == old(mists) && hearts == old(hearts)
    {
      InitializeAgents(now, draws);
      running := true;
      ended := false;
      ending := None;
      battle := NoBattle;
      lastTime := frameTime;
    }

    /** `resetSimulation`: stopped, no drugs or effects, the full arena, fresh agents. */
    method Reset(now: int, draws: seq<real>)
      requires R.Draws(draws)
      modifies this
      ensures Valid() && !running && !ended && ending.None? && battle == NoBattle && lastTime == old(lastTime)
      ensures drugs == [] && marks == [] && mists == [] && hearts == [] && bounds == FullArena && lastEncounter == now
      ensures agents == Population(draws, now)
    {
      running := false;
      ended := false;
      ending := None;
      battle := NoBattle;
      drugs := [];
      marks := [];
      mists := [];
      hearts := [];
      InitializeAgents(now, draws);
    }

    /** A click drops a drug point while the game runs. */
    method Click(now: int, x: real, y: real)
      modifies this`drugs
      ensures running && !ended ==> drugs == old(drugs) + [Drug(now, x, y, DrugRadius, DrugTtl, now)]
      ensures !(running && !ended) ==> drugs == old(drugs)
    {
      if !running || ended {
        return;
      }
      drugs := drugs + [Drug(now, x, y, DrugRadius, DrugTtl, now)];
    }

    /** Every agent but the duel's finalists moves, in list order. */
    method MoveAll(now: int, noise: int -> Noise, unit: (real, real) -> (real, real))
      requires UniqueIds(agents) && PowersPositive(agents)
      modifies this`agents
      ensures agents == MovePass(old(agents), |old(agents)|, drugs, bounds, battle, now, noise, unit)
      ensures Evolves(old(agents), agents) && UniqueIds(agents) && PowersPositive(agents)
    {
      var start := agents;
      agents := MoveEveryone(agents, drugs, bounds, battle, now, noise, unit);
      R.RelocatedGrown(start, agents);
      GrownEvolves(start, agents);
      GrownUnique(start, agents);
    }

    /** `processDrugInteractions`. */
    method ProcessDrugInteractions(now: int)
      requires UniqueIds(agents) && PowersPositive(agents)
      modifies this`agents, this`drugs, this`lastEncounter, this`marks
      ensures var r := DrugPass(R.DrugState(old(agents), [], false, old(marks)), old(drugs), now);
        agents == r.agents && marks == r.marks && drugs == Filter(old(drugs), R.NotUsed(r.used)) &&
        lastEncounter == (if r.encounter then now else old(lastEncounter))
      ensures Evolves(old(agents), agents) && UniqueIds(agents) && PowersPositive(agents)
    {
      DrugPassEvolves(R.DrugState(agents, [], false, marks), drugs, now);
      var r := RunDrugs(agents, drugs, marks, now);
      agents := r.agents;
      drugs := Filter(drugs, R.NotUsed(r.used));
      marks := r.marks;
      if r.encounter {
        lastEncounter := now;
      }
    }

    /** `processAgentInteractions`: the contact pass, then the marked agents are removed. */
    method ProcessAgentInteractions(now: int)
      requires UniqueIds(agents) && PowersPositive(agents)
      modifies this`agents, this`lastEncounter, this`marks
      ensures var st := Round(R.PassState(old(agents), [], false, old(marks)), |old(agents)|, now);
        agents == Filter(st.agents, R.Unmarked(st.removed)) && marks == st.marks &&
        lastEncounter == (if st.encounter then now else old(lastEncounter))
      ensures Evolves(old(agents), agents) && UniqueIds(agents) && PowersPositive(agents)
    {
      ContactPassSparesProtected(agents, marks, now);
      var st := ContactPass(agents, marks, now);
      if st.encounter {
        lastEncounter := now;
      }
      agents := Filter(st.agents, R.Unmarked(st.removed));
      marks := st.marks;
    }

    /** `processArenaShrink`: after 5 s without an encounter the box closes in by 10 per second of
        frame time, and everyone is pushed back inside. */
    method ProcessArenaShrink(now: int, dt: real)
      requires Roomy(bounds) && Centred(bounds) && UniqueIds(agents) && PowersPositive(agents)
      modifies this`agents, this`bounds
      ensures Roomy(bounds) && Centred(bounds)
      ensures Evolves(old(agents), agents) && UniqueIds(agents) && PowersPositive(agents)
      ensures now - lastEncounter <= NoEncounterTime ==> agents == old(agents) && bounds == old(bounds)
      ensures now - lastEncounter > NoEncounterTime ==>
        bounds == ShrinkBounds(old(bounds), ShrinkRate * dt / 1000.0) && |agents| == |old(agents)| &&
        forall k :: 0 <= k < |agents| ==> agents[k] == ClampInto(old(agents)[k], bounds) && Inside(agents[k], bounds)
    {
      if now - lastEncounter > NoEncounterTime {
        bounds := ShrinkBounds(bounds, ShrinkRate * dt / 1000.0);
        var current := agents;
        for k := 0 to |current|
          invariant |current| == |agents|
          invariant forall m :: 0 <= m < k ==> current[m] == ClampInto(agents[m], bounds)
          invariant forall m :: k <= m < |current| ==> current[m] == agents[m]
        {
          current := current[k := ClampInto(current[k], bounds)];
        }
        assert Grown(agents, current);
        GrownEvolves(agents, current);
        GrownUnique(agents, current);
        agents := current;
      } else {
        GrownEvolves(agents, agents);
      }
    }

    /** `checkEndgame`: the lone survivor rule, then the final battle when one of each is left; a decided
        battle stops the game. */
    method CheckEndgame(unit: (real, real) -> (real, real))
      requires UniqueIds(agents) && PowersPositive(agents) && ending.None? && !ended
      modifies this`agents, this`ending, this`ended, this`running, this`battle
      ensures Evolves(old(agents), agents) && UniqueIds(agents) && PowersPositive(agents)
      ensures ending.None? ==> (!ended && running == old(running) &&
        forall k :: 0 <= k < |agents| ==> (agents[k].protected <==> Lone(agents, agents[k].team)))
      ensures ending.Some? ==> ended && !running && battle == NoBattle && Decided(agents, ending.value)
      ensures !(|TeamOf(old(agents), Reindeer)| == 1 && |TeamOf(old(agents), Rabbit)| == 1) ==>
        ending.None? && battle == NoBattle
      ensures R.EndState(agents, marks, battle, ending) == EndOf(old(agents), marks, old(battle), unit)
    {
      var r := Endgame(agents, marks, battle, unit);
      Commit(r);
    }

    /** Takes over the endgame's agents, duel and ending; a decided battle stops the game. */
    method Commit(r: R.EndState)
      modifies this`agents, this`ending, this`ended, this`running, this`battle
      ensures agents == r.agents && battle == r.battle && ending == r.ending
      ensures r.ending.Some? ==> ended && !running
      ensures r.ending.None? ==> ended == old(ended) && running == old(running)
    {
      agents, battle, ending := r.agents, r.battle, r.ending;
      if r.ending.Some? {
        ended := true;
        running := false;
      }
    }

    /** The first half of a frame: movement, then drugs, then contact. */
    method Interact(now: int, noise: int -> Noise, unit: (real, real) -> (real, real))
      requires UniqueIds(agents) && PowersPositive(agents)
      modifies this`agents, this`drugs, this`lastEncounter, this`marks
      ensures Evolves(old(agents), agents) && UniqueIds(agents) && PowersPositive(agents)
    {
      var start := agents;
      MoveAll(now, noise, unit);
      var moved := agents;
      ProcessDrugInteractions(now);
      EvolvesTransitive(start, moved, agents);
      var dosed := agents;
      ProcessAgentInteractions(now);
      EvolvesTransitive(start, dosed, agents);
    }

    /** The second half of a frame: the arena shrinks and the endgame is checked. */
    method Conclude(now: int, dt: real, unit: (real, real) -> (real, real))
      requires UniqueIds(agents) && PowersPositive(agents) && Centred(bounds) && Roomy(bounds)
      requires ending.None? && !ended
      modifies this`agents, this`bounds, this`ending, this`ended, this`running, this`battle
      ensures Evolves(old(agents), agents) && UniqueIds(agents) && PowersPositive(agents)
      ensures Centred(bounds) && Roomy(bounds) && !(running && ended) && (ended <==> ending.Some?)
      ensures ending.Some? ==> Decided(agents, ending.value)
      ensures !ended ==> forall k :: 0 <= k < |agents| ==> (agents[k].protected <==> Lone(agents, agents[k].team))
    {
      var start := agents;
      ProcessArenaShrink(now, dt);
      var shrunk := agents;
      CheckEndgame(unit);
      EvolvesTransitive(start, shrunk, agents);
    }

    /** The end of a frame: expired drugs go, and markers, mists and hearts age. */
    method Age(now: int)
      modifies this`drugs, this`marks, this`mists, this`hearts
      ensures drugs == ExpireDrugs(old(drugs), now) && marks == AgeMarks(old(marks), now)
      ensures mists == AgeMist(old(mists), now) && hearts == AgeHearts(old(hearts), now)
    {
      drugs := ExpireDrugs(drugs, now);
      marks := AgeMarks(marks, now);
      mists := AgeMist(mists, now);
      hearts := AgeHearts(hearts, now);
    }

    /** One animation frame while the game runs: movement, drugs, contact, shrink, endgame, then the
        drugs' lifetime and the effects' ageing. */
    method Tick(frameTime: real, now: int, noise: int -> Noise, unit: (real, real) -> (real, real))
      requires Valid()
      modifies this
      ensures Valid()
      ensures !old(running) ==> unchanged(this)
      ensures old(running) ==> Evolves(old(agents), agents) && lastTime == frameTime
      ensures old(running) ==> forall k :: 0 <= k < |drugs| ==> now - drugs[k].createdAt < drugs[k].ttl
      ensures old(running) && !ended ==> forall k :: 0 <= k < |agents| ==> (agents[k].protected <==> Lone(agents, agents[k].team))
    {
      if !running {
        return;
      }
      var dt := frameTime - lastTime;
      lastTime := frameTime;
      var start := agents;
      Interact(now, noise, unit);
      var fought := agents;
      Conclude(now, dt, unit);
      EvolvesTransitive(start, fought, agents);
      Age(now);
    }
  }
}
