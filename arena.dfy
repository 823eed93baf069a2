/**
 * What the two variants of the reindeer-and-rabbit hatchery simulation share:
 * the agent, drug-point and visual-marker records, the arena box, the
 * constants, squared-distance geometry, the nearest-drug scan, the
 * last-match target scan, wandering, the arena shrink and the ageing of
 * drugs and markers.
 */
module Arena {
  import opened Lists
  import opened Wrappers

  datatype Team = Reindeer | Rabbit

  /** An agent; `wanderX`/`wanderY` of 0 and `lastWanderChange` of 0 stand for "not set". */
  datatype Agent = Agent(
    id: int, x: real, y: real, team: Team, power: real,
    vx: real, vy: real, protected: bool, truceUntil: int,
    wanderX: real, wanderY: real, lastWanderChange: int)

  datatype Drug = Drug(id: int, x: real, y: real, radius: real, ttl: int, createdAt: int)

  /** A darkening mark where an agent died. */
  datatype Mark = Mark(x: real, y: real, time: int)
  datatype Mist = Mist(x: real, y: real, time: int, radius: real)
  datatype Heart = Heart(x: real, y: real, time: int, scale: real)

  datatype Bounds = Bounds(left: real, right: real, top: real, bottom: real)

  datatype Ending = EndingA | EndingB | EndingC

  /** The final duel's two finalists, by id, once it has started. */
  datatype Battle = NoBattle | Duel(a0: int, a1: int)

  /** What the outside world supplies for one agent's move: random draws in [0, 1)
      and the cosine and sine of random angles. */
  datatype Noise = Noise(initX: real, initY: real, cos: real, sin: real, spread: real, jitterCos: real, jitterSin: real)

  const CanvasWidth: real := 1200.0
  const CanvasHeight: real := 800.0
  const AgentSize: real := 4.0
  const PerTeam: nat := 200
  const DrugRadius: real := 50.0
  const DrugTtl: int := 5000
  const AttractionRadius: real := 500.0
  const TruceDuration: int := 2000
  const SenseRadius: real := 100.0
  const ContactRadius: real := 12.0
  const PowerGainOnDrug: real := 5.0
  const PowerGainOnContact: real := 3.0
  const GrowthThreshold: real := 0.4
  const NoEncounterTime: int := 5000
  const ShrinkRate: real := 10.0
  const MinArena: real := 200.0
  const FinalBattleThreshold: real := 0.25
  const WanderReach: real := 30.0
  const WanderPatience: int := 3000
  const WanderMargin: real := 50.0

  function MaxSpeed(t: Team): real
  {
    if t == Reindeer then 2.0 else 3.0
  }

  /** The power gap beyond which an agent of this team fights. */
  function Aggressiveness(t: Team): real
  {
    if t == Reindeer then 0.3 else 0.2
  }

  function Other(t: Team): Team
  {
    if t == Reindeer then Rabbit else Reindeer
  }

  function Abs(v: real): real
  {
    if v < 0.0 then -v else v
  }

  function Max(a: real, b: real): real
  {
    if a >= b then a else b
  }

  function Min(a: real, b: real): real
  {
    if a <= b then a else b
  }

  /** `Math.max(lo, Math.min(hi, v))`. */
  function Clamp(v: real, lo: real, hi: real): (r: real)
    ensures lo <= hi ==> lo <= r <= hi
    ensures lo <= v <= hi ==> r == v
  {
    Max(lo, Min(hi, v))
  }

  function DistSq(x1: real, y1: real, x2: real, y2: real): (d: real)
    ensures d >= 0.0
  {
    (x2 - x1) * (x2 - x1) + (y2 - y1) * (y2 - y1)
  }

  /** `distance(...) < r`, stated on squares: for r >= 0 the two agree. */
  predicate Within(x1: real, y1: real, x2: real, y2: real, r: real)
  {
    DistSq(x1, y1, x2, y2) < r * r
  }

  /** `(q - p) / max(p, q)`: how much stronger the other (power q) is than the agent (power p). */
  function PowerDiff(p: real, q: real): (d: real)
    ensures p > 0.0 && q > 0.0 ==> -1.0 < d < 1.0
    ensures p > 0.0 && q > 0.0 ==> (d > 0.0 <==> q > p) && (d < 0.0 <==> q < p)
  {
    if p > 0.0 && q > 0.0 then
      var m := Max(p, q);
      DivBounds(q - p, m);
      (q - p) / m
    else 0.0
  }

  lemma DivBounds(a: real, m: real)
    requires m > 0.0 && -m < a < m
    ensures -1.0 < a / m < 1.0
  {
    var d := a / m;
    assert d * m == a;
    assert (d - 1.0) * m == a - m;
    assert (d + 1.0) * m == a + m;
  }

  lemma DivMono(a: real, m: real, n: real)
    requires a >= 0.0 && 0.0 < m <= n
    ensures a / n <= a / m
  {
    var x, y := a / m, a / n;
    assert x * m == a && y * n == a;
    assert y * m <= y * n;
  }

  /** Seen from the other side the gap changes sign. */
  lemma PowerDiffAntisymmetric(p: real, q: real)
    requires p > 0.0 && q > 0.0
    ensures PowerDiff(q, p) == -PowerDiff(p, q)
  {
    var m := Max(p, q);
    assert Max(q, p) == m;
    var d := (q - p) / m;
    assert d * m == q - p;
    var e := (p - q) / m;
    assert e * m == p - q;
    assert (e + d) * m == 0.0;
    assert e + d == 0.0;
  }

  /** Adding the same positive gain to both sides never widens the gap. */
  lemma PowerDiffNarrows(p: real, q: real, g: real)
    requires p > 0.0 && q > 0.0 && g >= 0.0
    ensures Abs(PowerDiff(p + g, q + g)) <= Abs(PowerDiff(p, q))
  {
    var m := Max(p, q);
    var gap := Abs(q - p);
    assert Abs(PowerDiff(p, q)) == gap / m;
    assert Abs(PowerDiff(p + g, q + g)) == gap / (m + g);
    DivMono(gap, m, m + g);
  }

  /** The id at position `k`; distinctness is stated on it so that the fact is only unfolded where a
      proof names the positions it compares. */
  function IdAt(s: seq<Agent>, k: int): int
    requires 0 <= k < |s|
  {
    s[k].id
  }

  predicate UniqueIds(s: seq<Agent>)
  {
    forall i, j :: 0 <= i < j < |s| ==> IdAt(s, i) != IdAt(s, j)
  }

  /** Two positions of a list with distinct ids hold different ids. */
  lemma IdsDiffer(s: seq<Agent>, i: nat, j: nat)
    requires UniqueIds(s) && i < |s| && j < |s| && i != j
    ensures s[i].id != s[j].id
  {
    if i < j {
      assert IdAt(s, i) != IdAt(s, j);
    } else {
      assert IdAt(s, j) != IdAt(s, i);
    }
  }

  predicate PowersPositive(s: seq<Agent>)
  {
    forall k :: 0 <= k < |s| ==> s[k].power > 0.0
  }

  // ---------------------------------------------------------------------
  // power never decreases

  /** `b` is `a` later on: same agent, same team, at least as strong. */
  predicate Descends(a: Agent, b: Agent)
  {
    a.id == b.id && a.team == b.team && a.power <= b.power
  }

  /** Some agent of `o` is an earlier state of `b`. */
  ghost predicate HasAncestor(o: seq<Agent>, b: Agent)
  {
    exists i :: 0 <= i < |o| && Descends(o[i], b)
  }

  /** Every agent of `n` descends from one of `o`: none is new and none lost power. */
  ghost predicate Evolves(o: seq<Agent>, n: seq<Agent>)
  {
    forall j :: 0 <= j < |n| ==> HasAncestor(o, n[j])
  }

  /** Position-by-position growth: the shape of every in-place update of a pass. */
  predicate Grown(o: seq<Agent>, n: seq<Agent>)
  {
    |o| == |n| && forall k :: 0 <= k < |o| ==> Descends(o[k], n[k])
  }

  lemma GrownEvolves(o: seq<Agent>, n: seq<Agent>)
    requires Grown(o, n)
    ensures Evolves(o, n)
  {
    forall j | 0 <= j < |n| ensures HasAncestor(o, n[j]) {
      assert Descends(o[j], n[j]);
    }
  }

  lemma EvolvesTransitive(a: seq<Agent>, b: seq<Agent>, c: seq<Agent>)
    requires Evolves(a, b) && Evolves(b, c)
    ensures Evolves(a, c)
  {
    forall j | 0 <= j < |c| ensures HasAncestor(a, c[j]) {
      var k :| 0 <= k < |b| && Descends(b[k], c[j]);
      var i :| 0 <= i < |a| && Descends(a[i], b[k]);
      assert Descends(a[i], c[j]);
    }
  }

  /** Removing agents keeps every survivor's history. */
  lemma EvolvesFilter(o: seq<Agent>, n: seq<Agent>, p: Agent -> bool)
    requires Evolves(o, n)
    ensures Evolves(o, Filter(n, p))
  {
    var f := Filter(n, p);
    forall j | 0 <= j < |f| ensures HasAncestor(o, f[j]) {
      FilterMember(n, p, f[j]);
      var k :| 0 <= k < |n| && n[k] == f[j];
      var i :| 0 <= i < |o| && Descends(o[i], n[k]);
    }
  }

  lemma EvolvesPositive(o: seq<Agent>, n: seq<Agent>)
    requires Evolves(o, n) && PowersPositive(o)
    ensures PowersPositive(n)
  {
    forall j | 0 <= j < |n| ensures n[j].power > 0.0 {
      var i :| 0 <= i < |o| && Descends(o[i], n[j]);
    }
  }

  /** A filtered list has no repeated ids when the list had none. */
  lemma {:induction false} UniqueFilter(s: seq<Agent>, p: Agent -> bool)
    requires UniqueIds(s)
    ensures UniqueIds(Filter(s, p))
  {
    if |s| > 0 {
      forall i, j | 0 <= i < j < |s| - 1 ensures IdAt(s[1..], i) != IdAt(s[1..], j) {
        assert IdAt(s, i + 1) != IdAt(s, j + 1);
      }
      UniqueFilter(s[1..], p);
      var rest := Filter(s[1..], p);
      forall k | 0 <= k < |rest| ensures rest[k].id != s[0].id {
        FilterMember(s[1..], p, rest[k]);
        var m :| 0 <= m < |s| - 1 && s[1..][m] == rest[k];
        IdsDiffer(s, m + 1, 0);
      }
      var f := Filter(s, p);
      forall i, j | 0 <= i < j < |f| ensures IdAt(f, i) != IdAt(f, j) {
        if p(s[0]) {
          if i > 0 {
            assert IdAt(rest, i - 1) != IdAt(rest, j - 1);
          }
        } else {
          assert IdAt(rest, i) != IdAt(rest, j);
        }
      }
    }
  }

  lemma GrownUnique(o: seq<Agent>, n: seq<Agent>)
    requires Grown(o, n) && UniqueIds(o)
    ensures UniqueIds(n)
  {
    forall i, j | 0 <= i < j < |n| ensures IdAt(n, i) != IdAt(n, j) {
      assert IdAt(o, i) != IdAt(o, j);
    }
  }

  /** Nobody joins, leaves, changes team or changes protection: only positions, velocities and powers
      move, and powers only up. */
  predicate InPlace(o: seq<Agent>, n: seq<Agent>)
  {
    Grown(o, n) && forall k :: 0 <= k < |o| ==> n[k].protected == o[k].protected
  }

  lemma InPlaceKeeps(o: seq<Agent>, n: seq<Agent>)
    requires InPlace(o, n) && UniqueIds(o) && PowersPositive(o)
    ensures Evolves(o, n) && UniqueIds(n) && PowersPositive(n) && SameTeams(o, n)
  {
    GrownEvolves(o, n);
    GrownUnique(o, n);
    EvolvesPositive(o, n);
  }

  /** An update in place that only lets agents grow keeps distinct ids and positive powers. */
  lemma GrownKeeps(o: seq<Agent>, n: seq<Agent>)
    requires Grown(o, n) && UniqueIds(o) && PowersPositive(o)
    ensures Evolves(o, n) && UniqueIds(n) && PowersPositive(n)
  {
    GrownEvolves(o, n);
    GrownUnique(o, n);
    EvolvesPositive(o, n);
  }

  // ---------------------------------------------------------------------
  // team membership

  function OnTeam(t: Team): Agent -> bool
  {
    (a: Agent) => a.team == t
  }

  function TeamOf(s: seq<Agent>, t: Team): seq<Agent>
  {
    Filter(s, OnTeam(t))
  }

  /** The single-survivor rule: alone on a team while the other team has more than one. */
  predicate Lone(s: seq<Agent>, t: Team)
  {
    |TeamOf(s, t)| == 1 && |TeamOf(s, Other(t))| > 1
  }

  /** Position by position, the same teams. */
  predicate SameTeams(o: seq<Agent>, n: seq<Agent>)
  {
    |o| == |n| && forall k :: 0 <= k < |o| ==> o[k].team == n[k].team
  }

  /** Updates that keep every agent's team keep the team sizes. */
  lemma {:induction false} SameTeamsSizes(o: seq<Agent>, n: seq<Agent>, t: Team)
    requires SameTeams(o, n)
    ensures |TeamOf(o, t)| == |TeamOf(n, t)|
  {
    if |o| > 0 {
      assert SameTeams(o[1..], n[1..]) by {
        assert forall k :: 0 <= k < |o| - 1 ==> o[1..][k] == o[k + 1] && n[1..][k] == n[k + 1];
      }
      SameTeamsSizes(o[1..], n[1..], t);
    }
  }

  /** What an ending says about who is left: A, the rabbits won; C, the reindeer won; B, one of each survives. */
  predicate Decided(s: seq<Agent>, e: Ending)
  {
    match e
    case EndingA => |TeamOf(s, Reindeer)| == 0 && |TeamOf(s, Rabbit)| > 0
    case EndingC => |TeamOf(s, Rabbit)| == 0 && |TeamOf(s, Reindeer)| > 0
    case EndingB => |TeamOf(s, Reindeer)| == 1 && |TeamOf(s, Rabbit)| == 1
  }

  /** A member of a non-empty team is found by the scan. */
  lemma TeamMemberFound(s: seq<Agent>, t: Team)
    requires |TeamOf(s, t)| > 0
    ensures LastMatch(s, OnTeam(t)).Some? && s[LastMatch(s, OnTeam(t)).value].team == t
  {
    FilterMember(s, OnTeam(t), TeamOf(s, t)[0]);
  }

  lemma SameTeamsLone(o: seq<Agent>, n: seq<Agent>)
    requires SameTeams(o, n)
    ensures forall t :: Lone(o, t) == Lone(n, t)
  {
    SameTeamsSizes(o, n, Reindeer);
    SameTeamsSizes(o, n, Rabbit);
  }

  // ---------------------------------------------------------------------
  // removal by id

  function NotId(id: int): Agent -> bool
  {
    (a: Agent) => a.id != id
  }

  function Not(p: Agent -> bool): Agent -> bool
  {
    (a: Agent) => !p(a)
  }

  /** Removing the agents of `v` one at a time, each by a filter on its id. */
  function RemoveEach(s: seq<Agent>, v: seq<Agent>): (r: seq<Agent>)
    ensures |r| <= |s|
  {
    if |v| == 0 then s else Filter(RemoveEach(s, v[..|v| - 1]), NotId(v[|v| - 1].id))
  }

  lemma RemoveEachSnoc(s: seq<Agent>, v: seq<Agent>, a: Agent)
    ensures RemoveEach(s, v + [a]) == Filter(RemoveEach(s, v), NotId(a.id))
  {
    assert (v + [a])[..|v|] == v;
  }

  function NoneOf(v: seq<Agent>): Agent -> bool
  {
    (a: Agent) => forall k :: 0 <= k < |v| ==> v[k].id != a.id
  }

  /** The successive filters keep exactly the agents whose id is not listed. */
  lemma {:induction false} RemoveEachFilter(s: seq<Agent>, v: seq<Agent>)
    ensures RemoveEach(s, v) == Filter(s, NoneOf(v))
  {
    if |v| > 0 {
      var w := v[..|v| - 1];
      var last := NotId(v[|v| - 1].id);
      RemoveEachFilter(s, w);
      FilterTwice(s, NoneOf(w), last);
      forall k | 0 <= k < |s| ensures Both(NoneOf(w), last)(s[k]) == NoneOf(v)(s[k]) {
        assert forall j :: 0 <= j < |w| ==> w[j] == v[j];
      }
      FilterExt(s, Both(NoneOf(w), last), NoneOf(v));
    } else {
      FilterAll(s, NoneOf(v));
    }
  }

  /** In a list with distinct ids, removing one by one the agents a test picks removes exactly those. */
  lemma RemovePicked(s: seq<Agent>, p: Agent -> bool)
    requires UniqueIds(s)
    ensures RemoveEach(s, Filter(s, p)) == Filter(s, Not(p))
  {
    var v := Filter(s, p);
    RemoveEachFilter(s, v);
    forall k | 0 <= k < |s| ensures NoneOf(v)(s[k]) == Not(p)(s[k]) {
      if p(s[k]) {
        FilterKeeps(s, p, s[k]);
        var m :| 0 <= m < |v| && v[m] == s[k];
        assert v[m].id == s[k].id;
      } else {
        forall m | 0 <= m < |v| ensures v[m].id != s[k].id {
          FilterMember(s, p, v[m]);
          var j :| 0 <= j < |s| && s[j] == v[m];
          IdsDiffer(s, j, k);
        }
      }
    }
    FilterExt(s, NoneOf(v), Not(p));
  }

  /** Filtering by id the only member of a team out of a list with distinct ids empties that team
      and leaves the other team as it was. */
  lemma RemoveOnlyMember(s: seq<Agent>, i: nat)
    requires UniqueIds(s) && i < |s| && |TeamOf(s, s[i].team)| == 1
    ensures |TeamOf(Filter(s, NotId(s[i].id)), s[i].team)| == 0
    ensures TeamOf(Filter(s, NotId(s[i].id)), Other(s[i].team)) == TeamOf(s, Other(s[i].team))
  {
    var t := s[i].team;
    var gone := NotId(s[i].id);
    FilterKeeps(s, OnTeam(t), s[i]);
    assert TeamOf(s, t) == [s[i]];
    FilterTwice(s, gone, OnTeam(t));
    var r := Filter(s, Both(gone, OnTeam(t)));
    if |r| > 0 {
      FilterMember(s, Both(gone, OnTeam(t)), r[0]);
      FilterKeeps(s, OnTeam(t), r[0]);
      assert false;
    }
    FilterTwice(s, gone, OnTeam(Other(t)));
    forall k | 0 <= k < |s| ensures Both(gone, OnTeam(Other(t)))(s[k]) == OnTeam(Other(t))(s[k]) {
      if s[k].team == Other(t) {
        IdsDiffer(s, k, i);
      }
    }
    FilterExt(s, Both(gone, OnTeam(Other(t))), OnTeam(Other(t)));
  }

  /** Removing the last of a team leaves survivors that descend from the list, with distinct ids and
      positive powers, that team empty and the other untouched. */
  lemma LastOfTeamFalls(s: seq<Agent>, i: nat)
    requires UniqueIds(s) && PowersPositive(s) && i < |s| && |TeamOf(s, s[i].team)| == 1
    ensures var r := Filter(s, NotId(s[i].id));
      Evolves(s, r) && UniqueIds(r) && PowersPositive(r) &&
      |TeamOf(r, s[i].team)| == 0 && TeamOf(r, Other(s[i].team)) == TeamOf(s, Other(s[i].team))
    ensures |TeamOf(s, Other(s[i].team))| > 0 ==>
      Decided(Filter(s, NotId(s[i].id)), if s[i].team == Reindeer then EndingA else EndingC)
  {
    RemoveOnlyMember(s, i);
    GrownEvolves(s, s);
    EvolvesFilter(s, s, NotId(s[i].id));
    UniqueFilter(s, NotId(s[i].id));
    EvolvesPositive(s, Filter(s, NotId(s[i].id)));
  }

  // ---------------------------------------------------------------------
  // the arena box

  predicate Centred(b: Bounds)
  {
    b.right == CanvasWidth - b.left && b.bottom == CanvasHeight - b.top
  }

  predicate Roomy(b: Bounds)
  {
    b.right - b.left >= MinArena && b.bottom - b.top >= MinArena
  }

  const FullArena: Bounds := Bounds(0.0, CanvasWidth, 0.0, CanvasHeight)
  const SmallestArena: Bounds := Bounds((CanvasWidth - MinArena) / 2.0, (CanvasWidth + MinArena) / 2.0,
                                       (CanvasHeight - MinArena) / 2.0, (CanvasHeight + MinArena) / 2.0)

  /** Each side moves in by `amount`; a box narrower or lower than 200 resets to the central 200 x 200. */
  function ShrinkBounds(b: Bounds, amount: real): (r: Bounds)
    ensures Roomy(r)
    ensures Centred(b) ==> Centred(r)
    ensures r == SmallestArena || r == Bounds(b.left + amount, b.right - amount, b.top + amount, b.bottom - amount)
  {
    var s := Bounds(b.left + amount, b.right - amount, b.top + amount, b.bottom - amount);
    if s.right - s.left < MinArena || s.bottom - s.top < MinArena then SmallestArena else s
  }

  /** Shrinking by a non-negative amount never grows a centred, roomy box. */
  lemma ShrinkNests(b: Bounds, amount: real)
    requires Centred(b) && Roomy(b) && amount >= 0.0
    ensures var r := ShrinkBounds(b, amount);
      b.left <= r.left && r.right <= b.right && b.top <= r.top && r.bottom <= b.bottom
  {
  }

  /** The box the shrink leaves after `amount` per side from a centred box, until the floor is hit. */
  lemma ShrinkMovesEachSide(b: Bounds, amount: real)
    requires Centred(b) && b.right - b.left - 2.0 * amount >= MinArena && b.bottom - b.top - 2.0 * amount >= MinArena
    ensures ShrinkBounds(b, amount) == Bounds(b.left + amount, b.right - amount, b.top + amount, b.bottom - amount)
  {
  }

  /** An agent pushed back inside the box inset by its size. */
  function ClampInto(a: Agent, b: Bounds): (r: Agent)
    ensures r == a.(x := r.x, y := r.y)
    ensures Roomy(b) ==> Inside(r, b)
    ensures Inside(a, b) ==> r == a
  {
    a.(x := Clamp(a.x, b.left + AgentSize, b.right - AgentSize), y := Clamp(a.y, b.top + AgentSize, b.bottom - AgentSize))
  }

  predicate Inside(a: Agent, b: Bounds)
  {
    b.left + AgentSize <= a.x <= b.right - AgentSize && b.top + AgentSize <= a.y <= b.bottom - AgentSize
  }

  // ---------------------------------------------------------------------
  // the nearest drug

  predicate Attracts(x: real, y: real, d: Drug)
  {
    Within(x, y, d.x, d.y, AttractionRadius)
  }

  function DrugDist(x: real, y: real, d: Drug): real
  {
    DistSq(x, y, d.x, d.y)
  }

  /** `best` is the scan's answer over `ds[..k]`: in range, strictly closer than
      every earlier drug in range, no farther than every later one. */
  predicate NearestSoFar(x: real, y: real, ds: seq<Drug>, k: nat, best: Option<nat>)
    requires k <= |ds|
  {
    match best
    case None => forall j :: 0 <= j < k ==> !Attracts(x, y, ds[j])
    case Some(i) =>
      i < k && Attracts(x, y, ds[i]) &&
      (forall j :: 0 <= j < i && Attracts(x, y, ds[j]) ==> DrugDist(x, y, ds[j]) > DrugDist(x, y, ds[i])) &&
      (forall j :: i < j < k && Attracts(x, y, ds[j]) ==> DrugDist(x, y, ds[j]) >= DrugDist(x, y, ds[i]))
  }

  function NearestFrom(x: real, y: real, ds: seq<Drug>, k: nat, best: Option<nat>): (r: Option<nat>)
    requires k <= |ds| && NearestSoFar(x, y, ds, k, best)
    ensures NearestSoFar(x, y, ds, |ds|, r)
    decreases |ds| - k
  {
    if k == |ds| then best
    else
      var closer := Attracts(x, y, ds[k]) && (best.None? || DrugDist(x, y, ds[k]) < DrugDist(x, y, ds[best.value]));
      NearestFrom(x, y, ds, k + 1, if closer then Some(k) else best)
  }

  /** The drug an agent at (x, y) heads for: within 500, the closest, the first of equals. */
  function NearestDrug(x: real, y: real, ds: seq<Drug>): (r: Option<nat>)
    ensures NearestSoFar(x, y, ds, |ds|, r)
  {
    NearestFrom(x, y, ds, 0, None)
  }

  /** `findNearestDrug`: the min-scan over the drug list. */
  method FindNearestDrug(x: real, y: real, ds: seq<Drug>) returns (nearest: Option<nat>)
    ensures nearest == NearestDrug(x, y, ds)
  {
    nearest := None;
    var k := 0;
    while k < |ds|
      invariant 0 <= k <= |ds|
      invariant NearestSoFar(x, y, ds, k, nearest)
      invariant NearestFrom(x, y, ds, k, nearest) == NearestDrug(x, y, ds)
    {
      var dist := DrugDist(x, y, ds[k]);
      if Attracts(x, y, ds[k]) && (nearest.None? || dist < DrugDist(x, y, ds[nearest.value])) {
        nearest := Some(k);
      }
      k := k + 1;
    }
  }

  // ---------------------------------------------------------------------
  // the last match of a scan that keeps overwriting its answer

  function LastMatch<T>(s: seq<T>, p: T -> bool): (r: Option<nat>)
    ensures r.Some? ==> r.value < |s| && p(s[r.value]) && forall k :: r.value < k < |s| ==> !p(s[k])
    ensures r.None? ==> forall k :: 0 <= k < |s| ==> !p(s[k])
  {
    if |s| == 0 then None
    else if p(s[|s| - 1]) then Some(|s| - 1)
    else
      var r := LastMatch(s[..|s| - 1], p);
      assert forall k :: 0 <= k < |s| - 1 ==> s[..|s| - 1][k] == s[k];
      r
  }

  /** A front-to-back `forEach` that overwrites its answer on every match ends on the last match. */
  method ScanLastMatch<T>(s: seq<T>, p: T -> bool) returns (r: Option<nat>)
    ensures r == LastMatch(s, p)
  {
    r := None;
    var k := 0;
    while k < |s|
      invariant 0 <= k <= |s|
      invariant r == LastMatch(s[..k], p)
    {
      assert s[..k + 1][..k] == s[..k];
      if p(s[k]) {
        r := Some(k);
      }
      k := k + 1;
    }
    assert s[..k] == s;
  }

  // ---------------------------------------------------------------------
  // moving

  /** The velocity of length `speed` along (dx, dy); `unit` stands for the division by the square root. */
  function Toward(dx: real, dy: real, speed: real, unit: (real, real) -> (real, real)): (real, real)
  {
    var u := unit(dx, dy);
    (u.0 * speed, u.1 * speed)
  }

  /** Position update, then the clamp into the box inset by the agent size. */
  function FinishMove(a: Agent, b: Bounds): (r: Agent)
    ensures r == a.(x := r.x, y := r.y)
    ensures Roomy(b) ==> Inside(r, b)
  {
    ClampInto(a.(x := a.x + a.vx, y := a.y + a.vy), b)
  }

  /** A missing wander target (either coordinate falsy) is set near the agent. */
  function EnsureTarget(a: Agent, now: int, n: Noise): (r: Agent)
  {
    if a.wanderX == 0.0 || a.wanderY == 0.0 then
      a.(wanderX := a.x + (n.initX - 0.5) * 300.0, wanderY := a.y + (n.initY - 0.5) * 300.0, lastWanderChange := now)
    else a
  }

  /** Re-choose when the target is within 30 or more than 3 s have passed since the last change. */
  predicate ShouldRetarget(a: Agent, now: int)
  {
    DistSq(a.x, a.y, a.wanderX, a.wanderY) < WanderReach * WanderReach || now - a.lastWanderChange > WanderPatience
  }

  /** The wander step: set velocity toward the target as it was before any re-choice. */
  function Wander(a: Agent, b: Bounds, now: int, n: Noise, unit: (real, real) -> (real, real)): (r: Agent)
    ensures r == a.(vx := r.vx, vy := r.vy, wanderX := r.wanderX, wanderY := r.wanderY, lastWanderChange := r.lastWanderChange)
  {
    var a1 := EnsureTarget(a, now, n);
    var dx := a1.wanderX - a1.x;
    var dy := a1.wanderY - a1.y;
    var reach := 150.0 + n.spread * 200.0;
    var a2 := if ShouldRetarget(a1, now) then
        a1.(wanderX := Clamp(a1.x + n.cos * reach, b.left + WanderMargin, b.right - WanderMargin),
            wanderY := Clamp(a1.y + n.sin * reach, b.top + WanderMargin, b.bottom - WanderMargin),
            lastWanderChange := now)
      else a1;
    var speed := MaxSpeed(a.team);
    if dx * dx + dy * dy > 0.0 then
      var v := Toward(dx, dy, speed * 0.6, unit);
      a2.(vx := v.0, vy := v.1)
    else
      a2.(vx := n.jitterCos * speed * 0.3, vy := n.jitterSin * speed * 0.3)
  }

  /** A re-chosen target lies in the box inset by 50 and is stamped `now`; otherwise the target is kept. */
  lemma WanderTarget(a: Agent, b: Bounds, now: int, n: Noise, unit: (real, real) -> (real, real))
    requires Roomy(b)
    ensures var a1 := EnsureTarget(a, now, n); var r := Wander(a, b, now, n, unit);
      if ShouldRetarget(a1, now) then
        b.left + WanderMargin <= r.wanderX <= b.right - WanderMargin &&
        b.top + WanderMargin <= r.wanderY <= b.bottom - WanderMargin && r.lastWanderChange == now
      else r.wanderX == a1.wanderX && r.wanderY == a1.wanderY && r.lastWanderChange == a1.lastWanderChange
  {
  }

  /** An agent with a target more than 3 s old always re-chooses it. */
  lemma StaleTargetIsReplaced(a: Agent, now: int, n: Noise)
    requires a.wanderX != 0.0 && a.wanderY != 0.0 && now - a.lastWanderChange > WanderPatience
    ensures ShouldRetarget(EnsureTarget(a, now, n), now)
  {
  }

  /** Steering toward (pursuit) or away from (flight) another agent. */
  function Steer(a: Agent, o: Agent, pursue: bool, unit: (real, real) -> (real, real)): (r: Agent)
    ensures r == a.(vx := r.vx, vy := r.vy)
  {
    var dx := o.x - a.x;
    var dy := o.y - a.y;
    if dx * dx + dy * dy > 0.0 then
      var v := Toward(dx, dy, MaxSpeed(a.team), unit);
      if pursue then a.(vx := v.0, vy := v.1) else a.(vx := -v.0, vy := -v.1)
    else a
  }

  /** Heading for a drug at full speed. */
  function SteerToDrug(a: Agent, d: Drug, unit: (real, real) -> (real, real)): (r: Agent)
    ensures r == a.(vx := r.vx, vy := r.vy)
  {
    var dx := d.x - a.x;
    var dy := d.y - a.y;
    if dx * dx + dy * dy > 0.0 then
      var v := Toward(dx, dy, MaxSpeed(a.team), unit);
      a.(vx := v.0, vy := v.1)
    else a
  }

  // ---------------------------------------------------------------------
  // the drugs' lifetime and the markers' ageing

  predicate Expired(d: Drug, now: int)
  {
    now - d.createdAt >= d.ttl
  }

  function Live(now: int): Drug -> bool
  {
    (d: Drug) => !Expired(d, now)
  }

  /** The end-of-tick TTL filter. */
  function ExpireDrugs(ds: seq<Drug>, now: int): (r: seq<Drug>)
    ensures forall k :: 0 <= k < |r| ==> now - r[k].createdAt < r[k].ttl
  {
    Filter(ds, Live(now))
  }

  /** A drug not yet expired survives the TTL filter. */
  lemma LiveDrugKept(ds: seq<Drug>, d: Drug, now: int)
    requires d in ds && !Expired(d, now)
    ensures d in ExpireDrugs(ds, now)
  {
    FilterKeeps(ds, Live(now), d);
  }

  /** The darkening mark left where an agent died. */
  function MarkAt(now: int): Agent -> Mark
  {
    (a: Agent) => Mark(a.x, a.y, now)
  }

  function YoungerThan(now: int, limit: int): Mark -> bool
  {
    (m: Mark) => now - m.time < limit
  }

  /** Darkening marks last 500 ms. */
  function AgeMarks(ms: seq<Mark>, now: int): (r: seq<Mark>)
    ensures forall k :: 0 <= k < |r| ==> now - r[k].time < 500
  {
    Filter(ms, YoungerThan(now, 500))
  }

  function HeartYoungerThan(now: int, limit: int): Heart -> bool
  {
    (h: Heart) => now - h.time < limit
  }

  /** Hearts last 1500 ms and keep their position. */
  function AgeHearts(hs: seq<Heart>, now: int): (r: seq<Heart>)
    ensures forall k :: 0 <= k < |r| ==> now - r[k].time < 1500
  {
    Filter(hs, HeartYoungerThan(now, 1500))
  }

  function MistKept(now: int): Mist -> bool
  {
    (m: Mist) => now - m.time <= 2000
  }

  function MistGrown(now: int): Mist -> Mist
  {
    (m: Mist) => m.(radius := Min(60.0, ((now - m.time) as real) / 10.0))
  }

  /** Mist is dropped after 2000 ms; the rest grows to radius min(60, age / 10). */
  function AgeMist(ms: seq<Mist>, now: int): (r: seq<Mist>)
    ensures |r| <= |ms|
    ensures forall k :: 0 <= k < |r| ==> now - r[k].time <= 2000 && r[k].radius <= 60.0
    ensures forall k :: 0 <= k < |r| ==> r[k].radius == Min(60.0, ((now - r[k].time) as real) / 10.0)
  {
    Map(Filter(ms, MistKept(now)), MistGrown(now))
  }

  /** A mist younger than 600 ms has radius exactly a tenth of its age. */
  lemma MistRadiusEarly(m: Mist, now: int)
    requires 0 <= now - m.time <= 600
    ensures MistGrown(now)(m).radius == ((now - m.time) as real) / 10.0
  {
  }
}
