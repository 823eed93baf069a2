/**
 * The later hatchery simulation (`components/RCop/Simulation.tsx`). One tick
 * moves every agent, resolves the drug points, lets agents in close contact
 * fight or grow (removing the dead at the end of the pass), shrinks the
 * arena when nobody has met for a while, and runs the endgame: a team wiped
 * out ends the game, a lone survivor facing a crowd is protected, and the
 * last two agents fight a duel.
 */
module RCopSimulation {
  import opened Lists
  import opened Arena
  import opened Wrappers

  // ---------------------------------------------------------------------
  // movement

  /** `o` is within `radius` of `a` and is not `a` itself. */
  function Near(a: Agent, radius: real): Agent -> bool
  {
    (o: Agent) => o.id != a.id && Within(a.x, a.y, o.x, o.y, radius)
  }

  /** An agent in truce ignores agents of the other team. */
  predicate TruceSkips(a: Agent, o: Agent, now: int)
  {
    now < a.truceUntil && o.team != a.team
  }

  /** A neighbour worth reacting to: not skipped by a truce, and beyond the acting agent's threshold either way. */
  function Provokes(a: Agent, now: int): Agent -> bool
  {
    (o: Agent) => !TruceSkips(a, o, now) && Abs(PowerDiff(a.power, o.power)) > Aggressiveness(a.team)
  }

  /** Only where an agent is, where it heads and where it wanders change when it moves. */
  predicate Relocated(a: Agent, r: Agent)
  {
    r == a.(x := r.x, y := r.y, vx := r.vx, vy := r.vy, wanderX := r.wanderX, wanderY := r.wanderY,
            lastWanderChange := r.lastWanderChange)
  }

  /** One agent's move: head for the nearest drug in range; failing that, chase or flee the last
      provoking neighbour; failing that, wander. Then step and clamp into the arena. */
  function Move(a: Agent, s: seq<Agent>, ds: seq<Drug>, b: Bounds, now: int, n: Noise,
                unit: (real, real) -> (real, real)): (r: Agent)
    ensures Relocated(a, r)
    ensures Roomy(b) ==> Inside(r, b)
  {
    var steered :=
      match NearestDrug(a.x, a.y, ds)
      case Some(k) => SteerToDrug(a, ds[k], unit)
      case None =>
        var near := Filter(s, Near(a, SenseRadius));
        match LastMatch(near, Provokes(a, now))
        case Some(j) => Steer(a, near[j], PowerDiff(a.power, near[j].power) < 0.0, unit)
        case None => Wander(a, b, now, n, unit);
    FinishMove(steered, b)
  }

  /** A drug in attraction range overrides everything else: where the other agents are does not matter. */
  lemma DrugComesFirst(a: Agent, s1: seq<Agent>, s2: seq<Agent>, ds: seq<Drug>, b: Bounds, now: int, n: Noise,
                       unit: (real, real) -> (real, real))
    requires NearestDrug(a.x, a.y, ds).Some?
    ensures Move(a, s1, ds, b, now, n, unit) == Move(a, s2, ds, b, now, n, unit)
    ensures Move(a, s1, ds, b, now, n, unit) == FinishMove(SteerToDrug(a, ds[NearestDrug(a.x, a.y, ds).value], unit), b)
  {
  }

  /** With no drug in range the agent reacts to the last provoking neighbour in list order:
      it chases a weaker one and flees a stronger one. */
  lemma ChaseWeakerFleeStronger(a: Agent, s: seq<Agent>, ds: seq<Drug>, b: Bounds, now: int, n: Noise,
                                unit: (real, real) -> (real, real))
    requires NearestDrug(a.x, a.y, ds).None?
    requires LastMatch(Filter(s, Near(a, SenseRadius)), Provokes(a, now)).Some?
    ensures var near := Filter(s, Near(a, SenseRadius));
      var o := near[LastMatch(near, Provokes(a, now)).value];
      o.id != a.id && Within(a.x, a.y, o.x, o.y, SenseRadius) &&
      Move(a, s, ds, b, now, n, unit) == FinishMove(Steer(a, o, o.power < a.power, unit), b)
  {
    var near := Filter(s, Near(a, SenseRadius));
    var o := near[LastMatch(near, Provokes(a, now)).value];
    assert Provokes(a, now)(o);
    assert a.power > 0.0 && o.power > 0.0;
  }

  /** A moving agent's neighbourhood decides only its heading: with nothing provoking in sight it wanders. */
  lemma CalmWanders(a: Agent, s: seq<Agent>, ds: seq<Drug>, b: Bounds, now: int, n: Noise,
                    unit: (real, real) -> (real, real))
    requires NearestDrug(a.x, a.y, ds).None?
    requires forall k :: 0 <= k < |s| && Near(a, SenseRadius)(s[k]) ==> !Provokes(a, now)(s[k])
    ensures Move(a, s, ds, b, now, n, unit) == FinishMove(Wander(a, b, now, n, unit), b)
  {
    var near := Filter(s, Near(a, SenseRadius));
    forall j | 0 <= j < |near| ensures !Provokes(a, now)(near[j]) {
      FilterMember(s, Near(a, SenseRadius), near[j]);
    }
  }

  /** The duel's finalists are moved by the duel, not by the movement pass. */
  predicate InDuel(battle: Battle, a: Agent)
  {
    battle.Duel? && (a.id == battle.a0 || a.id == battle.a1)
  }

  /** The movement pass over the first `k` agents; each sees the others as already moved. */
  function MovePass(s: seq<Agent>, k: nat, ds: seq<Drug>, b: Bounds, battle: Battle, now: int,
                    noise: int -> Noise, unit: (real, real) -> (real, real)): (r: seq<Agent>)
    requires k <= |s|
    ensures |r| == |s|
    ensures forall m :: 0 <= m < |s| ==> Relocated(s[m], r[m])
    ensures forall m :: k <= m < |s| ==> r[m] == s[m]
    ensures Roomy(b) ==> forall m :: 0 <= m < k && !InDuel(battle, s[m]) ==> Inside(r[m], b)
  {
    if k == 0 then s
    else
      var c := MovePass(s, k - 1, ds, b, battle, now, noise, unit);
      if InDuel(battle, c[k - 1]) then c
      else c[k - 1 := Move(c[k - 1], c, ds, b, now, noise(c[k - 1].id), unit)]
  }

  lemma RelocatedGrown(o: seq<Agent>, n: seq<Agent>)
    requires |o| == |n| && forall m :: 0 <= m < |o| ==> Relocated(o[m], n[m])
    ensures Grown(o, n) && SameTeams(o, n)
  {
    assert forall m :: 0 <= m < |o| ==> n[m].id == o[m].id && n[m].team == o[m].team && n[m].power == o[m].power;
  }

  // ---------------------------------------------------------------------
  // drugs

  function InRadius(d: Drug): Agent -> bool
  {
    (a: Agent) => Within(a.x, a.y, d.x, d.y, d.radius)
  }

  function Unprotected(): Agent -> bool
  {
    (a: Agent) => !a.protected
  }

  predicate BothTeamsIn(s: seq<Agent>)
  {
    |TeamOf(s, Reindeer)| > 0 && |TeamOf(s, Rabbit)| > 0
  }

  /** The drug's effect on an agent when both teams meet at it: +5 power and a 2 s truce. */
  function Dose(d: Drug, now: int): Agent -> Agent
  {
    (a: Agent) => if InRadius(d)(a) then a.(power := a.power + PowerGainOnDrug, truceUntil := now + TruceDuration) else a
  }

  /** The state of the drug pass: agents, ids of the drugs used up, the encounter flag, new marks. */
  datatype DrugState = DrugState(agents: seq<Agent>, used: seq<int>, encounter: bool, marks: seq<Mark>)

  /** One drug point: both teams in its radius make a truce and use it up; one team alone is
      poisoned once it has expired (the protected excepted), which also uses it up. */
  function DrugStep(st: DrugState, d: Drug, now: int): (r: DrugState)
    ensures r.used == st.used || r.used == st.used + [d.id]
  {
    var inRadius := Filter(st.agents, InRadius(d));
    if |inRadius| == 0 then st
    else if BothTeamsIn(inRadius) then
      st.(agents := Map(st.agents, Dose(d, now)), used := st.used + [d.id], encounter := true)
    else if Expired(d, now) then
      var victims := Filter(inRadius, Unprotected());
      st.(agents := RemoveEach(st.agents, victims), used := st.used + [d.id], marks := st.marks + Map(victims, MarkAt(now)))
    else st
  }

  /** The drug pass over `ds`, in order. */
  function DrugPass(st: DrugState, ds: seq<Drug>, now: int): (r: DrugState)
  {
    if |ds| == 0 then st else DrugStep(DrugPass(st, ds[..|ds| - 1], now), ds[|ds| - 1], now)
  }

  /** Both teams at a drug: everyone in its radius grows by 5 and is in truce for 2 s; nobody else changes. */
  lemma DrugTruce(st: DrugState, d: Drug, now: int)
    requires BothTeamsIn(Filter(st.agents, InRadius(d)))
    ensures var r := DrugStep(st, d, now);
      r.encounter && r.used == st.used + [d.id] && |r.agents| == |st.agents| &&
      forall k :: 0 <= k < |st.agents| ==>
        r.agents[k] == if InRadius(d)(st.agents[k])
                       then st.agents[k].(power := st.agents[k].power + 5.0, truceUntil := now + 2000)
                       else st.agents[k]
  {
    assert |Filter(st.agents, InRadius(d))| > 0 by {
      assert |TeamOf(Filter(st.agents, InRadius(d)), Reindeer)| > 0;
    }
  }

  /** An expired drug among one team kills exactly the unprotected agents in its radius, keeping the order of the rest. */
  lemma DrugPoison(st: DrugState, d: Drug, now: int)
    requires UniqueIds(st.agents) && Expired(d, now) && !BothTeamsIn(Filter(st.agents, InRadius(d)))
    ensures DrugStep(st, d, now).agents == Filter(st.agents, Not(Both(InRadius(d), Unprotected())))
  {
    var inRadius := Filter(st.agents, InRadius(d));
    FilterTwice(st.agents, InRadius(d), Unprotected());
    RemovePicked(st.agents, Both(InRadius(d), Unprotected()));
    if |inRadius| == 0 {
      forall k | 0 <= k < |st.agents| ensures Not(Both(InRadius(d), Unprotected()))(st.agents[k]) {
        if InRadius(d)(st.agents[k]) {
          FilterKeeps(st.agents, InRadius(d), st.agents[k]);
        }
      }
      FilterAll(st.agents, Not(Both(InRadius(d), Unprotected())));
    }
  }

  /** A live drug among one team does nothing. */
  lemma DrugWaits(st: DrugState, d: Drug, now: int)
    requires !Expired(d, now) && !BothTeamsIn(Filter(st.agents, InRadius(d)))
    ensures DrugStep(st, d, now) == st
  {
  }

  /** The drug pass keeps every survivor's history, distinct ids and positive powers. */
  lemma {:induction false} DrugPassEvolves(st: DrugState, ds: seq<Drug>, now: int)
    requires UniqueIds(st.agents) && PowersPositive(st.agents)
    ensures var r := DrugPass(st, ds, now);
      Evolves(st.agents, r.agents) && UniqueIds(r.agents) && PowersPositive(r.agents)
  {
    if |ds| == 0 {
      GrownEvolves(st.agents, st.agents);
    } else {
      var p := DrugPass(st, ds[..|ds| - 1], now);
      DrugPassEvolves(st, ds[..|ds| - 1], now);
      var d := ds[|ds| - 1];
      var r := DrugStep(p, d, now);
      var inRadius := Filter(p.agents, InRadius(d));
      if |inRadius| > 0 && BothTeamsIn(inRadius) {
        assert Grown(p.agents, r.agents);
        GrownEvolves(p.agents, r.agents);
        GrownUnique(p.agents, r.agents);
      } else if |inRadius| > 0 && Expired(d, now) {
        DrugPoison(p, d, now);
        GrownEvolves(p.agents, p.agents);
        EvolvesFilter(p.agents, p.agents, Not(Both(InRadius(d), Unprotected())));
        UniqueFilter(p.agents, Not(Both(InRadius(d), Unprotected())));
      } else {
        GrownEvolves(p.agents, p.agents);
      }
      EvolvesTransitive(st.agents, p.agents, r.agents);
      EvolvesPositive(st.agents, r.agents);
    }
  }

  function NotUsed(used: seq<int>): Drug -> bool
  {
    (d: Drug) => d.id !in used
  }

  // ---------------------------------------------------------------------
  // close contact

  datatype Outcome = Skipped | NoEffect | AgentDies(gain: real) | OtherDies(gain: real) | BothBoost

  /** The killer's share of the loser's power: reindeer take more. */
  function KillBonus(killer: Team): real
  {
    if killer == Reindeer then 0.6 else 0.5
  }

  /** What happens when agent `a`, on its visit, touches `o`; the acting agent's team sets the threshold. */
  function Contact(a: Agent, o: Agent, now: int): (r: Outcome)
    ensures r == Skipped <==> TruceSkips(a, o, now)
    ensures r.AgentDies? ==> !a.protected && o.power > a.power && r.gain == a.power * KillBonus(o.team)
    ensures r.OtherDies? ==> !o.protected && a.power > o.power && r.gain == o.power * KillBonus(a.team)
  {
    if TruceSkips(a, o, now) then Skipped
    else
      var d := PowerDiff(a.power, o.power);
      if Abs(d) > Aggressiveness(a.team) then
        if d > 0.0 then
          (if !a.protected then AgentDies(a.power * KillBonus(o.team)) else BothBoost)
        else
          (if !o.protected then OtherDies(o.power * KillBonus(a.team)) else BothBoost)
      else if a.team != o.team && Abs(d) <= GrowthThreshold then BothBoost
      else NoEffect
  }

  /** Beyond the threshold the weaker side dies, or both grow when it is protected; same team or not. */
  lemma ContactBeyondThreshold(a: Agent, o: Agent, now: int)
    requires a.power > 0.0 && o.power > 0.0 && !TruceSkips(a, o, now)
    requires Abs(PowerDiff(a.power, o.power)) > Aggressiveness(a.team)
    ensures o.power > a.power ==> Contact(a, o, now) == (if a.protected then BothBoost else AgentDies(a.power * KillBonus(o.team)))
    ensures a.power > o.power ==> Contact(a, o, now) == (if o.protected then BothBoost else OtherDies(o.power * KillBonus(a.team)))
  {
  }

  /** Within the threshold, agents of different teams always grow together (every threshold is below 0.4);
      agents of one team leave each other alone. */
  lemma ContactWithinThreshold(a: Agent, o: Agent, now: int)
    requires !TruceSkips(a, o, now)
    requires Abs(PowerDiff(a.power, o.power)) <= Aggressiveness(a.team)
    ensures a.team != o.team ==> Contact(a, o, now) == BothBoost
    ensures a.team == o.team ==> Contact(a, o, now) == NoEffect
  {
  }

  /** A protected agent is never the victim. */
  lemma ContactSparesProtected(a: Agent, o: Agent, now: int)
    ensures a.protected ==> !Contact(a, o, now).AgentDies?
    ensures o.protected ==> !Contact(a, o, now).OtherDies?
  {
  }

  /** The state of the contact pass: agents, ids marked for removal, the encounter flag, new marks. */
  datatype PassState = PassState(agents: seq<Agent>, removed: seq<int>, encounter: bool, marks: seq<Mark>)
  /** Only powers change during the pass, and never downwards. */
  predicate PowersOnly(o: seq<Agent>, n: seq<Agent>)
  {
    |o| == |n| && forall k :: 0 <= k < |o| ==> n[k] == o[k].(power := n[k].power) && o[k].power <= n[k].power
  }

  lemma PowersOnlyTransitive(a: seq<Agent>, b: seq<Agent>, c: seq<Agent>)
    requires PowersOnly(a, b) && PowersOnly(b, c)
    ensures PowersOnly(a, c)
  {
    forall k | 0 <= k < |a| ensures c[k] == a[k].(power := c[k].power) && a[k].power <= c[k].power {
      assert b[k] == a[k].(power := b[k].power);
    }
  }

  lemma PowersOnlyInPlace(o: seq<Agent>, n: seq<Agent>)
    requires PowersOnly(o, n)
    ensures InPlace(o, n)
  {
    forall k | 0 <= k < |o| ensures Descends(o[k], n[k]) && n[k].protected == o[k].protected {
      assert n[k] == o[k].(power := n[k].power);
    }
  }

  lemma PowersOnlyUnique(o: seq<Agent>, n: seq<Agent>)
    requires PowersOnly(o, n) && UniqueIds(o)
    ensures UniqueIds(n)
  {
    PowersOnlyInPlace(o, n);
    GrownUnique(o, n);
  }

  /** `o` is among the agents `a` finds within contact range. */
  predicate Touching(a: Agent, o: Agent)
  {
    Near(a, ContactRadius)(o)
  }

  /** A meeting of two teams that the acting agent's truce does not skip. */
  predicate Encounters(a: Agent, o: Agent, now: int)
  {
    a.team != o.team && !TruceSkips(a, o, now)
  }

  /** Both agents `i` and `j` gain the contact bonus; an agent meeting itself gains it twice. */
  function Boost(s: seq<Agent>, i: nat, j: nat): (r: seq<Agent>)
    requires i < |s| && j < |s|
    ensures InPlace(s, r)
    ensures PowersOnly(s, r)
    ensures i != j ==>
      r[i] == s[i].(power := s[i].power + PowerGainOnContact) && r[j] == s[j].(power := s[j].power + PowerGainOnContact)
    ensures i == j ==> r[i] == s[i].(power := s[i].power + 2.0 * PowerGainOnContact)
    ensures forall k :: 0 <= k < |s| && k != i && k != j ==> r[k] == s[k]
  {
    var g := s[i := s[i].(power := s[i].power + PowerGainOnContact)];
    g[j := g[j].(power := g[j].power + PowerGainOnContact)]
  }

  /** Agent `i`, on its visit, meets agent `j` (the nearby list of the visit is the touching agents in list order). */
  function Meet(st: PassState, i: nat, j: nat, now: int): (r: PassState)
    requires i < |st.agents| && j < |st.agents|
    ensures |r.agents| == |st.agents|
    ensures r.encounter == (st.encounter ||
      (Touching(st.agents[i], st.agents[j]) && st.agents[j].id !in st.removed && Encounters(st.agents[i], st.agents[j], now)))
  {
    var a := st.agents[i];
    var o := st.agents[j];
    if !Touching(a, o) || o.id in st.removed then st
    else
      var s := st.(encounter := st.encounter || Encounters(a, o, now));
      match Contact(a, o, now)
      case Skipped => s
      case NoEffect => s
      case AgentDies(g) =>
        s.(agents := s.agents[j := o.(power := o.power + g)], removed := s.removed + [a.id], marks := s.marks + [MarkAt(now)(a)])
      case OtherDies(g) =>
        s.(agents := s.agents[i := a.(power := a.power + g)], removed := s.removed + [o.id], marks := s.marks + [MarkAt(now)(o)])
      case BothBoost => s.(agents := Boost(s.agents, i, j))
  }

  /** Agent `i`'s visit to the first `n` agents. The early variant's `Visit` has the same shape
      over its own `Meet`. */
  function Visit(st: PassState, i: nat, n: nat, now: int): (r: PassState)
    requires i < |st.agents| && n <= |st.agents|
    ensures |r.agents| == |st.agents|
    ensures st.encounter ==> r.encounter
  {
    if n == 0 then st
    else
      var s := Visit(st, i, n - 1, now);
      Meet(s, i, n - 1, now)
  }

  /** The pass over the first `m` agents; one already marked for removal does not act. The early
      variant's `Round` has the same shape over its own `Visit`. */
  function Round(st: PassState, m: nat, now: int): (r: PassState)
    requires m <= |st.agents|
    ensures |r.agents| == |st.agents|
    ensures st.encounter ==> r.encounter
  {
    if m == 0 then st
    else
      var s := Round(st, m - 1, now);
      if s.agents[m - 1].id in s.removed then s else Visit(s, m - 1, |s.agents|, now)
  }

  /** A meeting changes only powers, and only upwards: a kill adds a positive share, a boost a constant. */
  lemma MeetGrows(st: PassState, i: nat, j: nat, now: int)
    requires i < |st.agents| && j < |st.agents|
    ensures PowersOnly(st.agents, Meet(st, i, j, now).agents)
  {
    var a := st.agents[i];
    var o := st.agents[j];
    if Touching(a, o) && o.id !in st.removed {
      match Contact(a, o, now)
      case AgentDies(g) => assert a.power > 0.0;
      case OtherDies(g) => assert o.power > 0.0;
      case _ =>
    }
  }

  lemma {:induction false} VisitGrows(st: PassState, i: nat, n: nat, now: int)
    requires i < |st.agents| && n <= |st.agents|
    ensures PowersOnly(st.agents, Visit(st, i, n, now).agents)
  {
    if n > 0 {
      var s := Visit(st, i, n - 1, now);
      VisitGrows(st, i, n - 1, now);
      MeetGrows(s, i, n - 1, now);
      PowersOnlyTransitive(st.agents, s.agents, Meet(s, i, n - 1, now).agents);
    }
  }

  /** During the whole pass only powers change, and never downwards. */
  lemma {:induction false} RoundGrows(st: PassState, m: nat, now: int)
    requires m <= |st.agents|
    ensures PowersOnly(st.agents, Round(st, m, now).agents)
  {
    if m > 0 {
      var s := Round(st, m - 1, now);
      RoundGrows(st, m - 1, now);
      if s.agents[m - 1].id !in s.removed {
        VisitGrows(s, m - 1, |s.agents|, now);
        PowersOnlyTransitive(st.agents, s.agents, Visit(s, m - 1, |s.agents|, now).agents);
      }
    }
  }

  function Unmarked(removed: seq<int>): Agent -> bool
  {
    (a: Agent) => a.id !in removed
  }

  /** Ids are marked only for unprotected agents. */
  predicate MarksUnprotected(st: PassState)
  {
    forall k :: 0 <= k < |st.agents| && st.agents[k].id in st.removed ==> !st.agents[k].protected
  }

  lemma MeetMarksUnprotected(st: PassState, i: nat, j: nat, now: int)
    requires i < |st.agents| && j < |st.agents|
    requires UniqueIds(st.agents) && MarksUnprotected(st)
    ensures MarksUnprotected(Meet(st, i, j, now))
  {
    var a := st.agents[i];
    var o := st.agents[j];
    var r := Meet(st, i, j, now);
    MeetGrows(st, i, j, now);
    if Touching(a, o) && o.id !in st.removed {
      forall k | 0 <= k < |r.agents| && r.agents[k].id in r.removed ensures !r.agents[k].protected {
        assert r.agents[k] == st.agents[k].(power := r.agents[k].power);
        if r.agents[k].id !in st.removed {
          match Contact(a, o, now)
          case AgentDies(g) => if k != i { IdsDiffer(st.agents, k, i); }
          case OtherDies(g) => if k != j { IdsDiffer(st.agents, k, j); }
          case _ =>
        }
      }
    }
  }

  lemma {:induction false} VisitMarksUnprotected(st: PassState, i: nat, n: nat, now: int)
    requires i < |st.agents| && n <= |st.agents|
    requires UniqueIds(st.agents) && MarksUnprotected(st)
    ensures MarksUnprotected(Visit(st, i, n, now))
  {
    if n > 0 {
      var s := Visit(st, i, n - 1, now);
      assert UniqueIds(s.agents) && MarksUnprotected(s) by {
        VisitMarksUnprotected(st, i, n - 1, now);
        VisitGrows(st, i, n - 1, now);
        PowersOnlyUnique(st.agents, s.agents);
      }
      MeetMarksUnprotected(s, i, n - 1, now);
    }
  }

  lemma {:induction false} RoundMarksUnprotected(st: PassState, m: nat, now: int)
    requires m <= |st.agents|
    requires UniqueIds(st.agents) && MarksUnprotected(st)
    ensures MarksUnprotected(Round(st, m, now))
  {
    if m > 0 {
      RoundMarksUnprotected(st, m - 1, now);
      RoundStep(st, m, now);
    }
  }

  lemma RoundStep(st: PassState, m: nat, now: int)
    requires 0 < m <= |st.agents|
    requires UniqueIds(st.agents) && MarksUnprotected(Round(st, m - 1, now))
    ensures MarksUnprotected(Round(st, m, now))
  {
    var s := Round(st, m - 1, now);
    RoundGrows(st, m - 1, now);
    PowersOnlyInPlace(st.agents, s.agents);
    GrownUnique(st.agents, s.agents);
    if s.agents[m - 1].id !in s.removed {
      VisitMarksUnprotected(s, m - 1, |s.agents|, now);
    }
  }

  /** The whole contact pass: powers only grow, ids stay distinct, and no protected agent is removed. */
  lemma ContactPassSparesProtected(s: seq<Agent>, marks: seq<Mark>, now: int)
    requires UniqueIds(s) && PowersPositive(s)
    ensures var st := Round(PassState(s, [], false, marks), |s|, now);
      var r := Filter(st.agents, Unmarked(st.removed));
      Evolves(s, r) && UniqueIds(r) && PowersPositive(r) &&
      forall k :: 0 <= k < |s| && s[k].protected ==> st.agents[k] in r
  {
    var st := Round(PassState(s, [], false, marks), |s|, now);
    RoundMarksUnprotected(PassState(s, [], false, marks), |s|, now);
    RoundGrows(PassState(s, [], false, marks), |s|, now);
    PowersOnlyInPlace(s, st.agents);
    GrownEvolves(s, st.agents);
    GrownUnique(s, st.agents);
    EvolvesFilter(s, st.agents, Unmarked(st.removed));
    UniqueFilter(st.agents, Unmarked(st.removed));
    var r := Filter(st.agents, Unmarked(st.removed));
    EvolvesPositive(s, r);
    forall k | 0 <= k < |s| && s[k].protected ensures st.agents[k] in r {
      assert st.agents[k] == s[k].(power := st.agents[k].power);
      FilterKeeps(st.agents, Unmarked(st.removed), st.agents[k]);
    }
  }

  // ---------------------------------------------------------------------
  // the duel

  datatype Verdict = RabbitWins | ReindeerWins | Survival | Grow | Approach

  /** Contact distance plus one step of both at the top speed. */
  const DuelReach: real := AgentSize * 2.0 + 3.0 * 2.0
  const DuelSpeed: real := 3.0
  const DuelAggressiveness: real := 0.3

  /** The duel's decision for reindeer `a0` and rabbit `a1`. */
  function DuelVerdict(a0: Agent, a1: Agent): Verdict
  {
    if DistSq(a0.x, a0.y, a1.x, a1.y) <= DuelReach * DuelReach then
      var d := PowerDiff(a0.power, a1.power);
      if Abs(d) > DuelAggressiveness then
        if d > FinalBattleThreshold then RabbitWins
        else if d < -FinalBattleThreshold then ReindeerWins
        else Survival
      else Grow
    else Approach
  }

  /** Once in reach, the stronger finalist wins outright when the gap exceeds 0.3, and otherwise both grow:
      the survival ending is never reached, since a gap beyond 0.3 is always beyond 0.25. */
  lemma DuelDecides(a0: Agent, a1: Agent)
    requires a0.power > 0.0 && a1.power > 0.0
    requires DistSq(a0.x, a0.y, a1.x, a1.y) <= DuelReach * DuelReach
    ensures DuelVerdict(a0, a1) != Survival
    ensures DuelVerdict(a0, a1) == RabbitWins <==> Abs(PowerDiff(a0.power, a1.power)) > 0.3 && a1.power > a0.power
    ensures DuelVerdict(a0, a1) == ReindeerWins <==> Abs(PowerDiff(a0.power, a1.power)) > 0.3 && a0.power > a1.power
    ensures DuelVerdict(a0, a1) == Grow <==> Abs(PowerDiff(a0.power, a1.power)) <= 0.3
  {
  }

  /** Whether or not the finalists are in reach, the survival verdict never comes. */
  lemma NeverSurvival(a0: Agent, a1: Agent)
    requires a0.power > 0.0 && a1.power > 0.0
    ensures DuelVerdict(a0, a1) != Survival
  {
    if DistSq(a0.x, a0.y, a1.x, a1.y) <= DuelReach * DuelReach {
      DuelDecides(a0, a1);
    }
  }

  /** The verdict looks at positions and powers only. */
  lemma VerdictIgnoresProtection(a0: Agent, a1: Agent)
    ensures DuelVerdict(a0.(protected := false), a1.(protected := false)) == DuelVerdict(a0, a1)
  {
  }

  /** The protection rule applied to one agent. */
  function Shield(lone0: bool, lone1: bool): Agent -> Agent
  {
    (a: Agent) => a.(protected := if a.team == Reindeer then lone0 else lone1)
  }

  /** The initial agent number `k` from five draws in [0, 1): position, power, wander target. */
  function Spawn(k: nat, draws: seq<real>, now: int): (a: Agent)
    requires k < 2 * PerTeam && |draws| >= 10 * PerTeam
  {
    var r := draws[5 * k .. 5 * k + 5];
    // 360 is 30% of the canvas width, 790 is 70% of it less 50, 700 is the canvas height less 100
    var x := if k < PerTeam then r[0] * 360.0 + 50.0 else r[0] * 360.0 + 790.0;
    var y := r[1] * 700.0 + 50.0;
    if k < PerTeam then
      Agent(k, x, y, Reindeer, 1.5 + r[2] * 2.5, 0.0, 0.0, false, 0, x + (r[3] - 0.5) * 200.0, y + (r[4] - 0.5) * 200.0, now)
    else
      Agent(k, x, y, Rabbit, 1.0 + r[2] * 2.0, 0.0, 0.0, false, 0, x + (r[3] - 0.5) * 200.0, y + (r[4] - 0.5) * 200.0, now)
  }

  /** Every draw lies in [0, 1), as `Math.random` promises. */
  predicate UnitDraws(draws: seq<real>)
  {
    |draws| == 0 || (0.0 <= draws[0] < 1.0 && UnitDraws(draws[1..]))
  }

  lemma {:induction false} UnitDrawAt(draws: seq<real>, k: nat)
    requires UnitDraws(draws) && k < |draws|
    ensures 0.0 <= draws[k] < 1.0
  {
    if k > 0 {
      UnitDrawAt(draws[1..], k - 1);
    }
  }

  /** Enough draws for 400 agents, five each. */
  predicate Draws(draws: seq<real>)
  {
    |draws| >= 10 * PerTeam && UnitDraws(draws)
  }

  /** The 400 initial agents, reindeer first; both variants spawn them the same way. */
  function Population(draws: seq<real>, now: int): (r: seq<Agent>)
    requires |draws| >= 10 * PerTeam
    ensures |r| == 2 * PerTeam && forall k :: 0 <= k < |r| ==> r[k] == Spawn(k, draws, now)
  {
    seq(2 * PerTeam, k requires 0 <= k < 2 * PerTeam => Spawn(k, draws, now))
  }

  /** Reindeer (ids 0-199) start on the left with power in [1.5, 4); rabbits (ids 200-399) on the right
      with power in [1, 3); everyone starts unprotected, out of truce, at rest, inside the arena. */
  lemma SpawnPlacement(k: nat, draws: seq<real>, now: int)
    requires k < 2 * PerTeam && Draws(draws)
    ensures var a := Spawn(k, draws, now);
      a.id == k && !a.protected && a.truceUntil == 0 && a.vx == 0.0 && a.vy == 0.0 &&
      50.0 <= a.y < 750.0 && Inside(a, FullArena) &&
      (k < PerTeam ==> a.team == Reindeer && 1.5 <= a.power < 4.0 && 50.0 <= a.x < 410.0) &&
      (k >= PerTeam ==> a.team == Rabbit && 1.0 <= a.power < 3.0 && 790.0 <= a.x < 1150.0)
  {
    UnitDrawAt(draws, 5 * k);
    UnitDrawAt(draws, 5 * k + 1);
    UnitDrawAt(draws, 5 * k + 2);
    assert draws[5 * k .. 5 * k + 5][0] == draws[5 * k];
    assert draws[5 * k .. 5 * k + 5][1] == draws[5 * k + 1];
    assert draws[5 * k .. 5 * k + 5][2] == draws[5 * k + 2];
  }

  // ---------------------------------------------------------------------
  // the passes as loops over the agent list

  /** `updateAgentMovement` for agent `a` among the agents `s`. */
  method MoveOne(a: Agent, s: seq<Agent>, ds: seq<Drug>, b: Bounds, now: int, n: Noise,
                 unit: (real, real) -> (real, real)) returns (r: Agent)
    ensures r == Move(a, s, ds, b, now, n, unit)
  {
    var nearest := FindNearestDrug(a.x, a.y, ds);
    if nearest.Some? {
      r := SteerToDrug(a, ds[nearest.value], unit);
    } else {
      var near := Filter(s, Near(a, SenseRadius));
      var target := ScanLastMatch(near, Provokes(a, now));
      if target.Some? {
        var o := near[target.value];
        r := Steer(a, o, PowerDiff(a.power, o.power) < 0.0, unit);
      } else {
        r := Wander(a, b, now, n, unit);
      }
    }
    r := FinishMove(r, b);
  }

  /** One more agent's turn in the movement pass. */
  lemma MovePassStep(s: seq<Agent>, k: nat, ds: seq<Drug>, b: Bounds, battle: Battle, now: int,
                     noise: int -> Noise, unit: (real, real) -> (real, real))
    requires k < |s|
    ensures var c := MovePass(s, k, ds, b, battle, now, noise, unit);
      MovePass(s, k + 1, ds, b, battle, now, noise, unit)
        == if InDuel(battle, c[k]) then c else c[k := Move(c[k], c, ds, b, now, noise(c[k].id), unit)]
  {
  }

  /** The movement loop of the frame: every agent but the duel's finalists moves, in list order, and
      sees the agents before it already moved. */
  method MoveEveryone(s: seq<Agent>, ds: seq<Drug>, b: Bounds, battle: Battle, now: int,
                      noise: int -> Noise, unit: (real, real) -> (real, real)) returns (r: seq<Agent>)
    ensures r == MovePass(s, |s|, ds, b, battle, now, noise, unit)
  {
    r := s;
    for k := 0 to |s|
      invariant r == MovePass(s, k, ds, b, battle, now, noise, unit)
    {
      MovePassStep(s, k, ds, b, battle, now, noise, unit);
      if !InDuel(battle, r[k]) {
        var a := MoveOne(r[k], r, ds, b, now, noise(r[k].id), unit);
        r := r[k := a];
      }
    }
  }

  /** One step of the poison loop: the next agent in the radius is removed and marked exactly when it is unprotected. */
  lemma PoisonStep(s: seq<Agent>, inRadius: seq<Agent>, now: int, m: nat)
    requires m < |inRadius|
    ensures var u := Filter(inRadius[..m], Unprotected()); var a := inRadius[m];
      var v := Filter(inRadius[..m + 1], Unprotected());
      (a.protected ==> v == u) &&
      (!a.protected ==> RemoveEach(s, v) == Filter(RemoveEach(s, u), NotId(a.id))
                        && Map(v, MarkAt(now)) == Map(u, MarkAt(now)) + [Mark(a.x, a.y, now)])
  {
    var a := inRadius[m];
    var u := Filter(inRadius[..m], Unprotected());
    assert inRadius[..m + 1] == inRadius[..m] + [a];
    FilterSnoc(inRadius[..m], a, Unprotected());
    if !a.protected {
      RemoveEachSnoc(s, u, a);
      MapAppend(u, [a], MarkAt(now));
    }
  }

  /** An expired drug's victims, removed one at a time with a mark for each. */
  method Poison(s: seq<Agent>, inRadius: seq<Agent>, marks: seq<Mark>, now: int) returns (r: seq<Agent>, rmarks: seq<Mark>)
    ensures r == RemoveEach(s, Filter(inRadius, Unprotected()))
    ensures rmarks == marks + Map(Filter(inRadius, Unprotected()), MarkAt(now))
  {
    r, rmarks := s, marks;
    for m := 0 to |inRadius|
      invariant r == RemoveEach(s, Filter(inRadius[..m], Unprotected()))
      invariant rmarks == marks + Map(Filter(inRadius[..m], Unprotected()), MarkAt(now))
    {
      var a := inRadius[m];
      PoisonStep(s, inRadius, now, m);
      if !a.protected {
        r := Filter(r, NotId(a.id));
        rmarks := rmarks + [Mark(a.x, a.y, now)];
      }
    }
    assert inRadius[..|inRadius|] == inRadius;
  }

  /** The loop over the drug points. */
  method RunDrugs(s: seq<Agent>, ds: seq<Drug>, marks: seq<Mark>, now: int) returns (r: DrugState)
    ensures r == DrugPass(DrugState(s, [], false, marks), ds, now)
  {
    r := DrugState(s, [], false, marks);
    for k := 0 to |ds|
      invariant r == DrugPass(DrugState(s, [], false, marks), ds[..k], now)
    {
      assert ds[..k + 1][..k] == ds[..k];
      var d := ds[k];
      var inRadius := Filter(r.agents, InRadius(d));
      if |inRadius| > 0 {
        if BothTeamsIn(inRadius) {
          r := r.(agents := Map(r.agents, Dose(d, now)), used := r.used + [d.id], encounter := true);
        } else if now - d.createdAt >= d.ttl {
          var survivors, newMarks := Poison(r.agents, inRadius, r.marks, now);
          r := r.(agents := survivors, used := r.used + [d.id], marks := newMarks);
        }
      }
    }
    assert ds[..|ds|] == ds;
  }

  /** Agent `i` meets agent `j`: the body of the inner loop of `processAgentInteractions`. */
  method MeetStep(st: PassState, i: nat, j: nat, now: int) returns (r: PassState)
    requires i < |st.agents| && j < |st.agents|
    ensures r == Meet(st, i, j, now)
  {
    var current, removed, encounter, ms := st.agents, st.removed, st.encounter, st.marks;
    var a := current[i];
    var o := current[j];
    if Touching(a, o) && o.id !in removed {
      encounter := encounter || Encounters(a, o, now);
      match Contact(a, o, now) {
        case AgentDies(g) =>
          current := current[j := o.(power := o.power + g)];
          removed := removed + [a.id];
          ms := ms + [Mark(a.x, a.y, now)];
        case OtherDies(g) =>
          current := current[i := a.(power := a.power + g)];
          removed := removed + [o.id];
          ms := ms + [Mark(o.x, o.y, now)];
        case BothBoost =>
          current := current[i := a.(power := a.power + PowerGainOnContact)];
          current := current[j := current[j].(power := current[j].power + PowerGainOnContact)];
        case _ =>
      }
    }
    r := PassState(current, removed, encounter, ms);
  }

  /** Agent `i`'s visit: every agent it touches that is not yet marked, in list order. The early
      variant's `VisitAgent` is the same loop over its own `Meet`. */
  method VisitAgent(st: PassState, i: nat, now: int) returns (r: PassState)
    requires i < |st.agents|
    ensures r == Visit(st, i, |st.agents|, now)
  {
    r := st;
    for j := 0 to |st.agents|
      invariant r == Visit(st, i, j, now)
    {
      r := MeetStep(r, i, j, now);
    }
  }

  /** The contact pass: every agent not yet marked for removal takes its visit. */
  method ContactPass(s: seq<Agent>, marks: seq<Mark>, now: int) returns (st: PassState)
    ensures st == Round(PassState(s, [], false, marks), |s|, now)
  {
    st := PassState(s, [], false, marks);
    for i := 0 to |s|
      invariant st == Round(PassState(s, [], false, marks), i, now)
    {
      if st.agents[i].id !in st.removed {
        st := VisitAgent(st, i, now);
      }
    }
  }

  // ---------------------------------------------------------------------
  // the simulation

  /** Out of reach, the finalists head for each other at the duel speed and take one step. */
  function CloseIn(s: seq<Agent>, i0: nat, i1: nat, unit: (real, real) -> (real, real)): (r: seq<Agent>)
    requires i0 < |s| && i1 < |s| && i0 != i1
    ensures InPlace(s, r) && forall k :: 0 <= k < |s| ==> r[k].power == s[k].power
  {
    var a0 := s[i0];
    var a1 := s[i1];
    var dx0 := a1.x - a0.x;
    var dy0 := a1.y - a0.y;
    var v0 := Toward(dx0, dy0, DuelSpeed, unit);
    var v1 := Toward(-dx0, -dy0, DuelSpeed, unit);
    s[i0 := a0.(vx := v0.0, vy := v0.1, x := a0.x + v0.0, y := a0.y + v0.1)]
     [i1 := a1.(vx := v1.0, vy := v1.1, x := a1.x + v1.0, y := a1.y + v1.1)]
  }

  /** What the final battle leaves behind: the agents, the markers and the ending, if any. */
  datatype DuelState = DuelState(agents: seq<Agent>, marks: seq<Mark>, ending: Option<Ending>)

  /** The branches of `processFinalBattle` once the verdict `v` is known for the reindeer at `i0` and the
      rabbit at `i1`: the finalists close in, grow together, or the loser is removed and marked (nobody,
      on the survival ending). */
  method SettleDuel(s: seq<Agent>, marks: seq<Mark>, i0: nat, i1: nat, v: Verdict, now: int, unit: (real, real) -> (real, real))
    returns (r: DuelState)
    requires i0 < |s| && i1 < |s| && UniqueIds(s) && PowersPositive(s)
    requires s[i0].team == Reindeer && s[i1].team == Rabbit
    requires |TeamOf(s, Reindeer)| == 1 && |TeamOf(s, Rabbit)| == 1
    ensures Evolves(s, r.agents) && UniqueIds(r.agents) && PowersPositive(r.agents)
    ensures r.ending == (match v
      case RabbitWins => Some(EndingA)
      case ReindeerWins => Some(EndingC)
      case Survival => Some(EndingB)
      case _ => None)
    ensures r.ending.None? ==> r.marks == marks && InPlace(s, r.agents)
    ensures r.ending.Some? ==> Decided(r.agents, r.ending.value)
    ensures v == RabbitWins ==> r.agents == Filter(s, NotId(s[i0].id)) && r.marks == marks + [MarkAt(now)(s[i0])]
    ensures v == ReindeerWins ==> r.agents == Filter(s, NotId(s[i1].id)) && r.marks == marks + [MarkAt(now)(s[i1])]
    ensures v == Grow ==> r.agents == Boost(s, i0, i1)
    ensures v == Approach ==> r.agents == CloseIn(s, i0, i1, unit)
    ensures v == Survival ==> r.agents == s && r.marks == marks
  {
    var a0 := s[i0];
    var a1 := s[i1];
    match v {
      case Approach =>
        var moved := CloseIn(s, i0, i1, unit);
        InPlaceKeeps(s, moved);
        r := DuelState(moved, marks, None);
      case Grow =>
        var grown := Boost(s, i0, i1);
        InPlaceKeeps(s, grown);
        r := DuelState(grown, marks, None);
      case Survival =>
        GrownKeeps(s, s);
        r := DuelState(s, marks, Some(EndingB));
      case RabbitWins =>
        LastOfTeamFalls(s, i0);
        r := DuelState(Filter(s, NotId(a0.id)), marks + [Mark(a0.x, a0.y, now)], Some(EndingA));
      case ReindeerWins =>
        LastOfTeamFalls(s, i1);
        r := DuelState(Filter(s, NotId(a1.id)), marks + [Mark(a1.x, a1.y, now)], Some(EndingC));
    }
  }

  /** The protection rule keeps ids, teams and powers; afterwards exactly the lone survivors are protected. */
  lemma ShieldKeeps(s: seq<Agent>)
    requires UniqueIds(s) && PowersPositive(s)
    ensures var r := Map(s, Shield(Lone(s, Reindeer), Lone(s, Rabbit)));
      Evolves(s, r) && UniqueIds(r) && PowersPositive(r) && SameTeams(s, r) &&
      |TeamOf(r, Reindeer)| == |TeamOf(s, Reindeer)| && |TeamOf(r, Rabbit)| == |TeamOf(s, Rabbit)| &&
      forall k :: 0 <= k < |r| ==> (r[k].protected <==> Lone(r, r[k].team))
  {
    var r := Map(s, Shield(Lone(s, Reindeer), Lone(s, Rabbit)));
    assert Grown(s, r) && SameTeams(s, r);
    GrownKeeps(s, r);
    SameTeamsLone(s, r);
    SameTeamsSizes(s, r, Reindeer);
    SameTeamsSizes(s, r, Rabbit);
  }

  /** The one member of a team of one is the one the scan finds. */
  lemma OnlyMember(s: seq<Agent>, t: Team, i: nat)
    requires |TeamOf(s, t)| == 1 && i < |s| && s[i].team == t
    ensures TeamOf(s, t) == [s[i]]
  {
    FilterKeeps(s, OnTeam(t), s[i]);
  }

  /** Where `checkEndgame` finds a team's member: the last one in list order, the only one of a team of one. */
  function Finalist(s: seq<Agent>, t: Team): (i: nat)
    requires |TeamOf(s, t)| > 0
    ensures i < |s| && s[i].team == t
    ensures |TeamOf(s, t)| == 1 ==> TeamOf(s, t) == [s[i]]
  {
    TeamMemberFound(s, t);
    var i := LastMatch(s, OnTeam(t)).value;
    if |TeamOf(s, t)| == 1 then OnlyMember(s, t, i); i else i
  }

  /** Everyone loses protection, as it does when one of each is left; the teams keep their sizes. */
  function Unshielded(s: seq<Agent>): (r: seq<Agent>)
    ensures |r| == |s| && forall k :: 0 <= k < |s| ==> r[k] == s[k].(protected := false)
    ensures |TeamOf(r, Reindeer)| == |TeamOf(s, Reindeer)| && |TeamOf(r, Rabbit)| == |TeamOf(s, Rabbit)|
  {
    FilterMap(s, Shield(false, false), OnTeam(Reindeer));
    FilterMap(s, Shield(false, false), OnTeam(Rabbit));
    Map(s, Shield(false, false))
  }

  /** Lifting protection from one of each keeps ids and powers and does not change the duel's verdict. */
  lemma UnshieldedKeeps(s: seq<Agent>)
    requires UniqueIds(s) && PowersPositive(s)
    requires |TeamOf(s, Reindeer)| == 1 && |TeamOf(s, Rabbit)| == 1
    ensures var u := Unshielded(s);
      Evolves(s, u) && UniqueIds(u) && PowersPositive(u) &&
      DuelVerdict(TeamOf(u, Reindeer)[0], TeamOf(u, Rabbit)[0]) == DuelVerdict(TeamOf(s, Reindeer)[0], TeamOf(s, Rabbit)[0])
  {
    assert !Lone(s, Reindeer) && !Lone(s, Rabbit);
    ShieldKeeps(s);
    FilterMap(s, Shield(false, false), OnTeam(Reindeer));
    FilterMap(s, Shield(false, false), OnTeam(Rabbit));
    VerdictIgnoresProtection(TeamOf(s, Reindeer)[0], TeamOf(s, Rabbit)[0]);
  }

  /** With one of each left, nobody is alone against a larger team. */
  lemma PairNotLone(s: seq<Agent>)
    requires |TeamOf(s, Reindeer)| == 1 && |TeamOf(s, Rabbit)| == 1
    ensures forall k :: 0 <= k < |s| ==> !Lone(s, s[k].team)
  {
  }

  /** What `checkEndgame` leaves behind: the agents, the markers, the duel and the ending, if any. */
  datatype EndState = EndState(agents: seq<Agent>, marks: seq<Mark>, battle: Battle, ending: Option<Ending>)

  /** `processFinalBattle` between the reindeer and the rabbit of a one-against-one arena, with the duel
      recorded unless one is already under way: out of reach the two close in, at reach with a small
      gap both grow and the game goes on; otherwise the loser is removed and marked (nobody on the
      survival ending) and the game ends. */
  function DuelOutcome(s: seq<Agent>, marks: seq<Mark>, battle: Battle, now: int, unit: (real, real) -> (real, real)): EndState
    requires |TeamOf(s, Reindeer)| == 1 && |TeamOf(s, Rabbit)| == 1
  {
    var i0 := Finalist(s, Reindeer);
    var i1 := Finalist(s, Rabbit);
    var duel := if battle == NoBattle then Duel(s[i0].id, s[i1].id) else battle;
    match DuelVerdict(s[i0], s[i1])
    case Approach => EndState(CloseIn(s, i0, i1, unit), marks, duel, None)
    case Grow => EndState(Boost(s, i0, i1), marks, duel, None)
    case Survival => EndState(s, marks, NoBattle, Some(EndingB))
    case RabbitWins => EndState(Filter(s, NotId(s[i0].id)), marks + [MarkAt(now)(s[i0])], NoBattle, Some(EndingA))
    case ReindeerWins => EndState(Filter(s, NotId(s[i1].id)), marks + [MarkAt(now)(s[i1])], NoBattle, Some(EndingC))
  }

  /** `checkEndgame`: a wiped-out team ends the game with a marker on every survivor of the other; one of
      each left fight the final battle unprotected; otherwise exactly the lone survivors are protected
      and no duel is under way. */
  function EndOf(s: seq<Agent>, marks: seq<Mark>, battle: Battle, now: int, unit: (real, real) -> (real, real)): EndState
  {
    var team0 := TeamOf(s, Reindeer);
    var team1 := TeamOf(s, Rabbit);
    if |team0| == 0 && |team1| > 0 then EndState(s, marks + Map(team1, MarkAt(now)), NoBattle, Some(EndingA))
    else if |team1| == 0 && |team0| > 0 then EndState(s, marks + Map(team0, MarkAt(now)), NoBattle, Some(EndingC))
    else if |team0| == 1 && |team1| == 1 then DuelOutcome(Unshielded(s), marks, battle, now, unit)
    else EndState(Map(s, Shield(Lone(s, Reindeer), Lone(s, Rabbit))), marks, NoBattle, None)
  }

  /** With one of each left, at reach and with a gap of at most 0.3, both finalists gain 3, the game goes
      on with the duel recorded, and the gap does not widen. */
  lemma DuelGrowthNarrows(s: seq<Agent>, marks: seq<Mark>, battle: Battle, now: int, unit: (real, real) -> (real, real))
    requires PowersPositive(s) && |TeamOf(s, Reindeer)| == 1 && |TeamOf(s, Rabbit)| == 1
    requires var a0 := s[Finalist(s, Reindeer)]; var a1 := s[Finalist(s, Rabbit)];
      DistSq(a0.x, a0.y, a1.x, a1.y) <= DuelReach * DuelReach && Abs(PowerDiff(a0.power, a1.power)) <= DuelAggressiveness
    ensures var i0 := Finalist(s, Reindeer); var i1 := Finalist(s, Rabbit); var r := DuelOutcome(s, marks, battle, now, unit);
      r.ending == None && r.marks == marks && r.battle != NoBattle &&
      r.agents[i0].power == s[i0].power + PowerGainOnContact && r.agents[i1].power == s[i1].power + PowerGainOnContact &&
      Abs(PowerDiff(r.agents[i0].power, r.agents[i1].power)) <= Abs(PowerDiff(s[i0].power, s[i1].power))
  {
    var i0 := Finalist(s, Reindeer);
    var i1 := Finalist(s, Rabbit);
    assert DuelVerdict(s[i0], s[i1]) == Grow;
    PowerDiffNarrows(s[i0].power, s[i1].power, PowerGainOnContact);
  }

  /** One of each left: both finalists lose protection, the duel starts unless it has, and the final
      battle runs between the reindeer and the rabbit. */
  method Showdown(s: seq<Agent>, marks: seq<Mark>, battle: Battle, now: int, unit: (real, real) -> (real, real))
    returns (r: EndState)
    requires UniqueIds(s) && PowersPositive(s)
    requires |TeamOf(s, Reindeer)| == 1 && |TeamOf(s, Rabbit)| == 1
    requires forall k :: 0 <= k < |s| ==> !s[k].protected
    ensures Evolves(s, r.agents) && UniqueIds(r.agents) && PowersPositive(r.agents)
    ensures r.ending.Some? ==> r.battle == NoBattle && r.ending != Some(EndingB) && Decided(r.agents, r.ending.value)
    ensures r.ending.None? ==> (r.marks == marks && r.battle != NoBattle &&
      |TeamOf(r.agents, Reindeer)| == 1 && |TeamOf(r.agents, Rabbit)| == 1 &&
      forall k :: 0 <= k < |r.agents| ==> !r.agents[k].protected)
    ensures var v := DuelVerdict(TeamOf(s, Reindeer)[0], TeamOf(s, Rabbit)[0]);
      (v == RabbitWins <==> r.ending == Some(EndingA)) && (v == ReindeerWins <==> r.ending == Some(EndingC))
    ensures r == DuelOutcome(s, marks, battle, now, unit)
  {
    var i0 := Finalist(s, Reindeer);
    var i1 := Finalist(s, Rabbit);
    var duel := if battle == NoBattle then Duel(s[i0].id, s[i1].id) else battle;
    var v := DuelVerdict(s[i0], s[i1]);
    NeverSurvival(s[i0], s[i1]);
    assert TeamOf(s, Reindeer)[0] == s[i0] && TeamOf(s, Rabbit)[0] == s[i1];
    var d := SettleDuel(s, marks, i0, i1, v, now, unit);
    if d.ending.None? {
      InPlaceKeeps(s, d.agents);
      assert forall k :: 0 <= k < |d.agents| ==> !d.agents[k].protected;
      SameTeamsSizes(s, d.agents, Reindeer);
      SameTeamsSizes(s, d.agents, Rabbit);
      r := EndState(d.agents, d.marks, duel, None);
    } else {
      r := EndState(d.agents, d.marks, NoBattle, d.ending);
    }
  }

  /** One agent left on each side: protection is lifted and the two close in until the duel settles. */
  method Finale(s: seq<Agent>, marks: seq<Mark>, battle: Battle, now: int, unit: (real, real) -> (real, real))
    returns (r: EndState)
    requires UniqueIds(s) && PowersPositive(s)
    requires |TeamOf(s, Reindeer)| == 1 && |TeamOf(s, Rabbit)| == 1
    ensures Evolves(s, r.agents) && UniqueIds(r.agents) && PowersPositive(r.agents)
    ensures r.ending.Some? ==> r.battle == NoBattle && r.ending != Some(EndingB) && Decided(r.agents, r.ending.value)
    ensures r.ending.None? ==> forall k :: 0 <= k < |r.agents| ==> !r.agents[k].protected && !Lone(r.agents, r.agents[k].team)
    ensures var v := DuelVerdict(TeamOf(s, Reindeer)[0], TeamOf(s, Rabbit)[0]);
      (v == RabbitWins <==> r.ending == Some(EndingA)) && (v == ReindeerWins <==> r.ending == Some(EndingC))
    ensures r == DuelOutcome(Unshielded(s), marks, battle, now, unit)
  {
    assert !Lone(s, Reindeer) && !Lone(s, Rabbit);
    var shielded := Unshielded(s);
    UnshieldedKeeps(s);
    r := Showdown(shielded, marks, battle, now, unit);
    EvolvesTransitive(s, shielded, r.agents);
    if r.ending.None? {
      PairNotLone(r.agents);
    }
  }

  /** `checkEndgame` on the agent list: a wiped-out team ends the game with a marker on every survivor;
      otherwise the lone survivor rule is applied and one of each left fights the final battle. */
  method Endgame(s: seq<Agent>, marks: seq<Mark>, battle: Battle, now: int, unit: (real, real) -> (real, real))
    returns (r: EndState)
    requires UniqueIds(s) && PowersPositive(s)
    ensures Evolves(s, r.agents) && UniqueIds(r.agents) && PowersPositive(r.agents)
    ensures r.ending.Some? ==> r.battle == NoBattle && r.ending != Some(EndingB) && Decided(r.agents, r.ending.value)
    ensures r.ending.None? ==> forall k :: 0 <= k < |r.agents| ==> (r.agents[k].protected <==> Lone(r.agents, r.agents[k].team))
    ensures |TeamOf(s, Reindeer)| == 0 && |TeamOf(s, Rabbit)| > 0 ==>
      r == EndState(s, marks + Map(TeamOf(s, Rabbit), MarkAt(now)), NoBattle, Some(EndingA))
    ensures |TeamOf(s, Rabbit)| == 0 && |TeamOf(s, Reindeer)| > 0 ==>
      r == EndState(s, marks + Map(TeamOf(s, Reindeer), MarkAt(now)), NoBattle, Some(EndingC))
    ensures |TeamOf(s, Reindeer)| == 0 && |TeamOf(s, Rabbit)| == 0 ==> r.ending.None?
    ensures !(|TeamOf(s, Reindeer)| == 1 && |TeamOf(s, Rabbit)| == 1) && |TeamOf(s, Reindeer)| + |TeamOf(s, Rabbit)| > 0 ==>
      r.ending.None? || r.agents == s
    ensures |TeamOf(s, Reindeer)| == 1 && |TeamOf(s, Rabbit)| == 1 ==>
      var v := DuelVerdict(TeamOf(s, Reindeer)[0], TeamOf(s, Rabbit)[0]);
      (v == RabbitWins <==> r.ending == Some(EndingA)) && (v == ReindeerWins <==> r.ending == Some(EndingC))
    ensures r == EndOf(s, marks, battle, now, unit)
  {
    var team0 := TeamOf(s, Reindeer);
    var team1 := TeamOf(s, Rabbit);
    if (|team0| == 0 && |team1| > 0) || (|team1| == 0 && |team0| > 0) {
      assert Evolves(s, s) && UniqueIds(s) && PowersPositive(s) by {
        GrownKeeps(s, s);
      }
      if |team0| == 0 {
        return EndState(s, marks + Map(team1, MarkAt(now)), NoBattle, Some(EndingA));
      }
      return EndState(s, marks + Map(team0, MarkAt(now)), NoBattle, Some(EndingC));
    }
    if |team0| == 1 && |team1| == 1 {
      r := Finale(s, marks, battle, now, unit);
    } else {
      ShieldKeeps(s);
      r := EndState(Map(s, Shield(Lone(s, Reindeer), Lone(s, Rabbit))), marks, NoBattle, None);
    }
  }

  class Simulation {
    var agents: seq<Agent>
    var drugs: seq<Drug>
    var marks: seq<Mark>
    var mists: seq<Mist>
    var hearts: seq<Heart>
    var bounds: Bounds
    var lastEncounter: int
    var running: bool
    var ended: bool
    var ending: Option<Ending>
    var battle: Battle
    var lastTime: real

    /** Distinct ids, positive powers, a centred arena at least 200 wide, a running game is not over,
        and an ending, once set, says who is left; the survival ending never occurs. */
    predicate Valid()
      reads this
    {
      UniqueIds(agents) && PowersPositive(agents) && Centred(bounds) && Roomy(bounds) &&
      !(running && ended) && (ended <==> ending.Some?) &&
      (ending.Some? ==> Decided(agents, ending.value)) && ending != Some(EndingB)
    }

    /** The mount: the agents are placed, nothing runs yet. */
    constructor (now: int, draws: seq<real>)
      requires Draws(draws)
      ensures Valid()
      ensures !running && !ended && ending.None? && battle == NoBattle && drugs == []
      ensures marks == [] && mists == [] && hearts == [] && bounds == FullArena && lastEncounter == now && lastTime == 0.0
      ensures agents == Population(draws, now)
    {
      drugs := [];
      marks := [];
      mists := [];
      hearts := [];
      running := false;
      ended := false;
      ending := None;
      battle := NoBattle;
      lastTime := 0.0;
      new;
      InitializeAgents(now, draws);
    }

    method InitializeAgents(now: int, draws: seq<real>)
      requires Draws(draws)
      modifies this`agents, this`lastEncounter, this`bounds
      ensures agents == Population(draws, now)
      ensures UniqueIds(agents) && PowersPositive(agents)
      ensures lastEncounter == now && bounds == FullArena
    {
      var created: seq<Agent> := [];
      for i := 0 to PerTeam
        invariant |created| == i && forall k :: 0 <= k < i ==> created[k] == Spawn(k, draws, now)
      {
        created := created + [Spawn(i, draws, now)];
      }
      for i := 0 to PerTeam
        invariant |created| == PerTeam + i && forall k :: 0 <= k < PerTeam + i ==> created[k] == Spawn(k, draws, now)
      {
        created := created + [Spawn(PerTeam + i, draws, now)];
      }
      forall k | 0 <= k < |created| ensures created[k].id == k && created[k].power > 0.0 {
        SpawnPlacement(k, draws, now);
      }
      assert created == Population(draws, now);
      agents := created;
      lastEncounter := now;
      bounds := FullArena;
    }

    /** `startSimulation`: fresh agents, the game running, no ending, no duel. */
    method Start(frameTime: real, now: int, draws: seq<real>)
      requires Draws(draws)
      modifies this
      ensures Valid() && running && !ended && battle == NoBattle && lastTime == frameTime
      ensures drugs == old(drugs) && agents == Population(draws, now)
      ensures bounds == FullArena && lastEncounter == now && ending == None
      ensures marks == old(marks) && mists == old(mists) && hearts == old(hearts)
    {
      InitializeAgents(now, draws);
      running := true;
      ended := false;
      ending := None;
      battle := NoBattle;
      lastTime := frameTime;
    }

    /** `resetSimulation`: stopped, no drugs or markers, the full arena, fresh agents. */
    method Reset(now: int, draws: seq<real>)
      requires Draws(draws)
      modifies this
      ensures Valid() && !running && !ended && ending.None? && battle == NoBattle && lastTime == old(lastTime)
      ensures drugs == [] && marks == [] && mists == [] && hearts == [] && bounds == FullArena && lastEncounter == now
      ensures agents == Population(draws, now)
    {
      running := false;
      ended := false;
      ending := None;
      battle := NoBattle;
      drugs := [];
      marks := [];
      mists := [];
      hearts := [];
      InitializeAgents(now, draws);
    }

    /** A click drops a drug point while the game runs. */
    method Click(now: int, x: real, y: real)
      modifies this`drugs
      ensures running && !ended ==> drugs == old(drugs) + [Drug(now, x, y, DrugRadius, DrugTtl, now)]
      ensures !(running && !ended) ==> drugs == old(drugs)
    {
      if !running || ended {
        return;
      }
      drugs := drugs + [Drug(now, x, y, DrugRadius, DrugTtl, now)];
    }

    /** Every agent but the duel's finalists moves, in list order. */
    method MoveAll(now: int, noise: int -> Noise, unit: (real, real) -> (real, real))
      requires UniqueIds(agents) && PowersPositive(agents)
      modifies this`agents
      ensures agents == MovePass(old(agents), |old(agents)|, drugs, bounds, battle, now, noise, unit)
      ensures Evolves(old(agents), agents) && UniqueIds(agents) && PowersPositive(agents)
    {
      var start := agents;
      agents := MoveEveryone(agents, drugs, bounds, battle, now, noise, unit);
      RelocatedGrown(start, agents);
      GrownEvolves(start, agents);
      GrownUnique(start, agents);
    }

    /** `processDrugInteractions`. */
    method ProcessDrugInteractions(now: int)
      requires UniqueIds(agents) && PowersPositive(agents)
      modifies this`agents, this`drugs, this`lastEncounter, this`marks
      ensures var r := DrugPass(DrugState(old(agents), [], false, old(marks)), old(drugs), now);
        agents == r.agents && marks == r.marks && drugs == Filter(old(drugs), NotUsed(r.used)) &&
        lastEncounter == (if r.encounter then now else old(lastEncounter))
      ensures Evolves(old(agents), agents) && UniqueIds(agents) && PowersPositive(agents)
    {
      DrugPassEvolves(DrugState(agents, [], false, marks), drugs, now);
      var r := RunDrugs(agents, drugs, marks, now);
      agents := r.agents;
      drugs := Filter(drugs, NotUsed(r.used));
      marks := r.marks;
      if r.encounter {
        lastEncounter := now;
      }
    }

    /** `processAgentInteractions`: the contact pass, then the marked agents are removed. */
    method ProcessAgentInteractions(now: int)
      requires UniqueIds(agents) && PowersPositive(agents)
      modifies this`agents, this`lastEncounter, this`marks
      ensures var st := Round(PassState(old(agents), [], false, old(marks)), |old(agents)|, now);
        agents == Filter(st.agents, Unmarked(st.removed)) && marks == st.marks &&
        lastEncounter == (if st.encounter then now else old(lastEncounter))
      ensures Evolves(old(agents), agents) && UniqueIds(agents) && PowersPositive(agents)
    {
      ContactPassSparesProtected(agents, marks, now);
      var st := ContactPass(agents, marks, now);
      if st.encounter {
        lastEncounter := now;
      }
      agents := Filter(st.agents, Unmarked(st.removed));
      marks := st.marks;
    }

    /** `processArenaShrink`: after 5 s without an encounter the box closes in by 10 per second of
        frame time, and everyone is pushed back inside. */
    method ProcessArenaShrink(now: int, dt: real)
      requires Roomy(bounds) && Centred(bounds) && UniqueIds(agents) && PowersPositive(agents)
      modifies this`agents, this`bounds
      ensures Roomy(bounds) && Centred(bounds)
      ensures Evolves(old(agents), agents) && UniqueIds(agents) && PowersPositive(agents)
      ensures now - lastEncounter <= NoEncounterTime ==> agents == old(agents) && bounds == old(bounds)
      ensures now - lastEncounter > NoEncounterTime ==>
        bounds == ShrinkBounds(old(bounds), ShrinkRate * dt / 1000.0) && |agents| == |old(agents)| &&
        forall k :: 0 <= k < |agents| ==> agents[k] == ClampInto(old(agents)[k], bounds) && Inside(agents[k], bounds)
    {
      if now - lastEncounter > NoEncounterTime {
        bounds := ShrinkBounds(bounds, ShrinkRate * dt / 1000.0);
        var current := agents;
        for k := 0 to |current|
          invariant |current| == |agents|
          invariant forall m :: 0 <= m < k ==> current[m] == ClampInto(agents[m], bounds)
          invariant forall m :: k <= m < |current| ==> current[m] == agents[m]
        {
          current := current[k := ClampInto(current[k], bounds)];
        }
        assert Grown(agents, current);
        GrownEvolves(agents, current);
        GrownUnique(agents, current);
        agents := current;
      } else {
        GrownEvolves(agents, agents);
      }
    }

    /** `checkEndgame`: wipe-outs end the game; otherwise a lone survivor facing more than one enemy is
        protected, and one of each starts or continues the duel. */
    method CheckEndgame(now: int, unit: (real, real) -> (real, real))
      requires UniqueIds(agents) && PowersPositive(agents) && ending.None? && !ended
      modifies this`agents, this`marks, this`ending, this`ended, this`running, this`battle
      ensures Evolves(old(agents), agents) && UniqueIds(agents) && PowersPositive(agents)
      ensures ending.None? ==> (!ended && running == old(running) &&
        forall k :: 0 <= k < |agents| ==> (agents[k].protected <==> Lone(agents, agents[k].team)))
      ensures ending.Some? ==> ended && !running && battle == NoBattle && ending != Some(EndingB) && Decided(agents, ending.value)
      ensures |TeamOf(old(agents), Reindeer)| == 0 && |TeamOf(old(agents), Rabbit)| > 0 ==>
        ending == Some(EndingA) && agents == old(agents) && marks == old(marks) + Map(TeamOf(old(agents), Rabbit), MarkAt(now))
      ensures |TeamOf(old(agents), Rabbit)| == 0 && |TeamOf(old(agents), Reindeer)| > 0 ==>
        ending == Some(EndingC) && agents == old(agents) && marks == old(marks) + Map(TeamOf(old(agents), Reindeer), MarkAt(now))
      ensures |TeamOf(old(agents), Reindeer)| == 0 && |TeamOf(old(agents), Rabbit)| == 0 ==> ending.None?
      ensures |TeamOf(old(agents), Reindeer)| == 1 && |TeamOf(old(agents), Rabbit)| == 1 ==>
        var v := DuelVerdict(TeamOf(old(agents), Reindeer)[0], TeamOf(old(agents), Rabbit)[0]);
        (v == RabbitWins <==> ending == Some(EndingA)) && (v == ReindeerWins <==> ending == Some(EndingC))
      ensures EndState(agents, marks, battle, ending) == EndOf(old(agents), old(marks), old(battle), now, unit)
    {
      var r := Endgame(agents, marks, battle, now, unit);
      Commit(r);
    }

    /** Takes over the endgame's agents, markers, duel and ending; a decided game stops. */
    method Commit(r: EndState)
      modifies this`agents, this`marks, this`ending, this`ended, this`running, this`battle
      ensures agents == r.agents && marks == r.marks && battle == r.battle && ending == r.ending
      ensures r.ending.Some? ==> ended && !running
      ensures r.ending.None? ==> ended == old(ended) && running == old(running)
    {
      agents, marks, battle, ending := r.agents, r.marks, r.battle, r.ending;
      if r.ending.Some? {
        ended := true;
        running := false;
      }
    }

    /** The first half of a frame: movement, then drugs, then contact. */
    method Interact(now: int, noise: int -> Noise, unit: (real, real) -> (real, real))
      requires UniqueIds(agents) && PowersPositive(agents)
      modifies this`agents, this`drugs, this`lastEncounter, this`marks
      ensures Evolves(old(agents), agents) && UniqueIds(agents) && PowersPositive(agents)
    {
      var start := agents;
      MoveAll(now, noise, unit);
      var moved := agents;
      ProcessDrugInteractions(now);
      EvolvesTransitive(start, moved, agents);
      var dosed := agents;
      ProcessAgentInteractions(now);
      EvolvesTransitive(start, dosed, agents);
    }

    /** The second half of a frame: the arena shrinks and the endgame is checked. */
    method Conclude(now: int, dt: real, unit: (real, real) -> (real, real))
      requires UniqueIds(agents) && PowersPositive(agents) && Centred(bounds) && Roomy(bounds)
      requires ending.None? && !ended
      modifies this`agents, this`bounds, this`marks, this`ending, this`ended, this`running, this`battle
      ensures Evolves(old(agents), agents) && UniqueIds(agents) && PowersPositive(agents)
      ensures Centred(bounds) && Roomy(bounds) && !(running && ended) && (ended <==> ending.Some?)
      ensures ending.Some? ==> Decided(agents, ending.value) && ending != Some(EndingB)
      ensures !ended ==> forall k :: 0 <= k < |agents| ==> (agents[k].protected <==> Lone(agents, agents[k].team))
    {
      var start := agents;
      ProcessArenaShrink(now, dt);
      var shrunk := agents;
      CheckEndgame(now, unit);
      EvolvesTransitive(start, shrunk, agents);
    }

    /** The end of a frame: expired drugs go, and markers, mists and hearts age. */
    method Age(now: int)
      modifies this`drugs, this`marks, this`mists, this`hearts
      ensures drugs == ExpireDrugs(old(drugs), now) && marks == AgeMarks(old(marks), now)
      ensures mists == AgeMist(old(mists), now) && hearts == AgeHearts(old(hearts), now)
    {
      drugs := ExpireDrugs(drugs, now);
      marks := AgeMarks(marks, now);
      mists := AgeMist(mists, now);
      hearts := AgeHearts(hearts, now);
    }

    /** One animation frame while the game runs: movement, drugs, contact, shrink, endgame, then the
        drugs' lifetime and the markers' ageing. */
    method Tick(frameTime: real, now: int, noise: int -> Noise, unit: (real, real) -> (real, real))
      requires Valid()
      modifies this
      ensures Valid()
      ensures !old(running) ==> unchanged(this)
      ensures old(running) ==> Evolves(old(agents), agents) && lastTime == frameTime
      ensures old(running) ==> forall k :: 0 <= k < |drugs| ==> now - drugs[k].createdAt < drugs[k].ttl
      ensures old(running) && !ended ==> forall k :: 0 <= k < |agents| ==> (agents[k].protected <==> Lone(agents, agents[k].team))
    {
      if !running {
        return;
      }
      var dt := frameTime - lastTime;
      lastTime := frameTime;
      var start := agents;
      Interact(now, noise, unit);
      var fought := agents;
      Conclude(now, dt, unit);
      EvolvesTransitive(start, fought, agents);
      Age(now);
    }
  }
}
