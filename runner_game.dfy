/**
 * The runner mini-game: a box that jumps under gravity, obstacles that
 * spawn at the right edge and slide left, a collision test with a 5-pixel
 * tolerance, a score that rises once a second and speeds the game up every
 * sixth point, the space-key state machine and the score's colour.
 */
module RunnerGame {
  import opened Text
  import opened Lists
  import opened Wrappers

  const CanvasWidth: real := 600.0
  const GroundY: real := 150.0
  const Gravity: real := 0.4
  const JumpPower: real := -10.0
  const InitialSpeed: real := 2.5
  const SpeedStep: real := 0.2
  const MinObstacleDistance: real := 300.0
  const DinoX: real := 50.0
  const DinoSize: real := 40.0
  const ObstacleWidth: real := 30.0
  const ObstacleHeight: real := 25.0
  const Tolerance: real := 5.0
  const SpawnDelay: int := 500
  const SpawnChance: real := 0.01
  const ScoreInterval: int := 1000

  datatype Obstacle = Obstacle(x: real, y: real, width: real, height: real)

  // ---------------------------------------------------------------------
  // one frame's rules

  datatype Body = Body(y: real, velocityY: real, isJumping: bool)

  /** The jump step: gravity, then the snap back onto the ground. */
  function JumpStep(b: Body): (r: Body)
    ensures b.isJumping || b.y <= GroundY ==> r.y <= GroundY
    ensures !b.isJumping ==> r == b
    ensures b.isJumping && r.isJumping ==> r.velocityY == b.velocityY + Gravity && r.y == b.y + r.velocityY && r.y < GroundY
    ensures b.isJumping && !r.isJumping ==> r.y == GroundY && r.velocityY == 0.0 && b.y + b.velocityY + Gravity >= GroundY
  {
    if b.isJumping then
      var v := b.velocityY + Gravity;
      var y := b.y + v;
      if y >= GroundY then Body(GroundY, 0.0, false) else Body(y, v, true)
    else b
  }

  /** The body after `n` frames. */
  function Frames(b: Body, n: nat): Body
    decreases n
  {
    if n == 0 then b else Frames(JumpStep(b), n - 1)
  }

  /** Height of the box `x` frames into a jump from the ground. */
  function ArcY(x: real): real
  {
    GroundY + JumpPower * x + Gravity * x * (x + 1.0) / 2.0
  }

  /** One more frame of the arc, and the box is still above the ground up to frame 48. */
  lemma ArcStep(x: real)
    requires 1.0 <= x <= 48.0
    ensures ArcY(x - 1.0) + (JumpPower + Gravity * x) == ArcY(x)
    ensures ArcY(x) < GroundY
  {
    var t := x * (49.0 - x);
    assert t > 0.0;
    assert ArcY(x) == GroundY - 0.2 * t;
  }

  /** Position and speed `k` frames into a jump from the ground, while still in the air. */
  lemma {:induction false} JumpArc(k: nat)
    requires k <= 48
    ensures Frames(Body(GroundY, JumpPower, true), k) == Body(ArcY(k as real), JumpPower + Gravity * (k as real), true)
  {
    if k > 0 {
      JumpArc(k - 1);
      FramesLast(Body(GroundY, JumpPower, true), k - 1);
      ArcStep(k as real);
      assert ((k - 1) as real) == (k as real) - 1.0;
    }
  }

  lemma {:induction false} FramesLast(b: Body, n: nat)
    ensures Frames(b, n + 1) == JumpStep(Frames(b, n))
    decreases n
  {
    if n > 0 {
      FramesLast(JumpStep(b), n - 1);
    }
  }

  /** The arc never rises above 30, which it touches on frames 24 and 25. */
  lemma ArcPeak(k: nat)
    ensures ArcY(k as real) >= GroundY - 120.0
  {
    var x := k as real;
    assert (k - 24) * (k - 25) >= 0 by {
      if k <= 24 { assert k - 24 <= 0 && k - 25 < 0; } else { assert k - 24 > 0 && k - 25 >= 0; }
    }
    assert ((k - 24) * (k - 25)) as real == (x - 24.0) * (x - 25.0);
    assert ArcY(x) - (GroundY - 120.0) == 0.2 * (x - 24.0) * (x - 25.0);
  }

  /** A jump from the ground stays in the air for 48 frames, lands on the 49th, and peaks 120 pixels up. */
  lemma JumpLands()
    ensures Frames(Body(GroundY, JumpPower, true), 49) == Body(GroundY, 0.0, false)
    ensures forall k :: 0 <= k <= 48 ==> Frames(Body(GroundY, JumpPower, true), k).isJumping
    ensures forall k :: 0 <= k <= 48 ==> Frames(Body(GroundY, JumpPower, true), k).y >= GroundY - 120.0
    ensures Frames(Body(GroundY, JumpPower, true), 24).y == GroundY - 120.0
  {
    JumpArc(48);
    JumpArc(24);
    FramesLast(Body(GroundY, JumpPower, true), 48);
    forall k | 0 <= k <= 48
      ensures Frames(Body(GroundY, JumpPower, true), k).isJumping
      ensures Frames(Body(GroundY, JumpPower, true), k).y >= GroundY - 120.0
    {
      JumpArc(k);
      ArcPeak(k);
    }
  }

  /** The spawn rule: more than 500 ms into the game, a draw below 0.01, and room since the last obstacle. */
  predicate ShouldSpawn(sinceStart: int, draw: real, lastObstacleX: real)
  {
    sinceStart > SpawnDelay && draw < SpawnChance && CanvasWidth - lastObstacleX >= MinObstacleDistance
  }

  /** The `reduce` that finds the largest x among the obstacles. */
  function Rightmost(obs: seq<Obstacle>): (r: real)
    requires |obs| > 0
    ensures exists k :: 0 <= k < |obs| && obs[k].x == r
    ensures forall k :: 0 <= k < |obs| ==> obs[k].x <= r
  {
    if |obs| == 1 then obs[0].x
    else
      var rest := Rightmost(obs[..|obs| - 1]);
      assert forall k :: 0 <= k < |obs| - 1 ==> obs[..|obs| - 1][k] == obs[k];
      if obs[|obs| - 1].x > rest then obs[|obs| - 1].x else rest
  }

  predicate OnScreen(o: Obstacle)
  {
    o.x > -o.width
  }

  function ShiftBy(speed: real): Obstacle -> Obstacle
  {
    (o: Obstacle) => o.(x := o.x - speed)
  }

  /** The obstacles shifted left by `speed`, dropping those that have left the screen, order kept. */
  function Advance(obs: seq<Obstacle>, speed: real): (r: seq<Obstacle>)
    ensures |r| <= |obs|
    ensures forall k :: 0 <= k < |r| ==> OnScreen(r[k])
  {
    Filter(Map(obs, ShiftBy(speed)), OnScreen)
  }

  /** An obstacle survives the frame exactly when it is an input shifted by `speed` and still on screen. */
  lemma AdvanceMembers(obs: seq<Obstacle>, speed: real, o: Obstacle)
    ensures o in Advance(obs, speed) <==> OnScreen(o) && exists j :: 0 <= j < |obs| && o == obs[j].(x := obs[j].x - speed)
  {
    var shifted := Map(obs, ShiftBy(speed));
    if o in Advance(obs, speed) {
      FilterMember(shifted, OnScreen, o);
      var j :| 0 <= j < |shifted| && shifted[j] == o;
      assert o == obs[j].(x := obs[j].x - speed);
    }
    if OnScreen(o) && exists j :: 0 <= j < |obs| && o == obs[j].(x := obs[j].x - speed) {
      var j :| 0 <= j < |obs| && o == obs[j].(x := obs[j].x - speed);
      assert shifted[j] == o;
      FilterKeeps(shifted, OnScreen, o);
    }
  }

  /** Overlap of the box and an obstacle with each edge pulled in by the tolerance. */
  predicate Collides(dinoY: real, o: Obstacle)
  {
    DinoX < o.x + o.width - Tolerance && DinoX + DinoSize > o.x + Tolerance &&
    dinoY < o.y + o.height - Tolerance && dinoY + DinoSize > o.y + Tolerance
  }

  predicate AnyCollision(dinoY: real, obs: seq<Obstacle>)
  {
    exists k :: 0 <= k < |obs| && Collides(dinoY, obs[k])
  }

  function NewObstacle(): Obstacle
  {
    Obstacle(CanvasWidth, GroundY, ObstacleWidth, ObstacleHeight)
  }

  /** The tolerance only makes the test more lenient: a collision needs a true overlap by more than 10 pixels each way. */
  lemma CollisionNeedsOverlap(dinoY: real, o: Obstacle)
    requires Collides(dinoY, o)
    ensures DinoX < o.x + o.width && o.x < DinoX + DinoSize
    ensures dinoY < o.y + o.height && o.y < dinoY + DinoSize
  {
  }

  /** A box on the ground hits a spawned obstacle exactly while its x is strictly between 25 and 85. */
  lemma GroundedCollision(x: real)
    ensures Collides(GroundY, NewObstacle().(x := x)) <==> 25.0 < x < 85.0
  {
  }

  /** A box whose top is at 115 or higher clears every spawned obstacle. */
  lemma HighJumpClears(dinoY: real, x: real)
    requires dinoY <= 115.0
    ensures !Collides(dinoY, NewObstacle().(x := x))
  {
  }

  datatype Colour = Pink | Mint | LightPurple | DarkPurple

  /** `score.toString()` for a non-negative score. */
  function Digits(n: nat): (s: string)
    ensures |s| > 0 && forall k :: 0 <= k < |s| ==> '0' <= s[k] <= '9'
    ensures n >= 10 ==> s[|s| - 1] == (n % 10) as char + '0'
  {
    if n < 10 then [(n as char) + '0'] else Digits(n / 10) + [((n % 10) as char) + '0']
  }

  function DigitValue(c: char): nat
  {
    if '0' <= c <= '9' then (c as int) - ('0' as int) else 0
  }

  function DigitsValue(s: string): nat
  {
    if |s| == 0 then 0 else 10 * DigitsValue(s[..|s| - 1]) + DigitValue(s[|s| - 1])
  }

  /** The decimal text reads back as the score. */
  lemma {:induction false} DigitsRoundTrip(n: nat)
    ensures DigitsValue(Digits(n)) == n
  {
    if n >= 10 {
      DigitsRoundTrip(n / 10);
      var s := Digits(n);
      assert s[..|s| - 1] == Digits(n / 10);
    }
  }

  /** The colour of the score text, by the first 6 and the first 7 among its digits. */
  function ScoreColour(score: nat): (c: Colour)
    ensures var s := Digits(score);
      c == Pink <==> (exists j :: 0 <= j < |s| && s[j] == '7' && Excludes(s[..j], '7') && !Excludes(s[..j], '6'))
    ensures var s := Digits(score);
      c == Mint <==> !Excludes(s, '6') && c != Pink
    ensures var s := Digits(score);
      c == LightPurple <==> Excludes(s, '6') && !Excludes(s, '7')
    ensures var s := Digits(score);
      c == DarkPurple <==> Excludes(s, '6') && Excludes(s, '7')
  {
    var s := Digits(score);
    var six := IndexOf(s, "6");
    var seven := IndexOf(s, "7");
    FirstIndex(s, '6');
    FirstIndex(s, '7');
    PinkOrder(s);
    if six.Some? && seven.Some? && six.value < seven.value then Pink
    else if six.Some? then Mint
    else if seven.Some? then LightPurple
    else DarkPurple
  }

  /** 67 is pink: its 6 comes first. */
  lemma ScoreColourExamples()
    ensures ScoreColour(67) == Pink
  {
    assert Digits(67) == "67";
    assert IndexOf("67", "6") == Some(0) && IndexOf("67", "7") == Some(1);
  }

  /** 76 is only mint: its 7 comes first. */
  lemma MintExample()
    ensures ScoreColour(76) == Mint
  {
    assert Digits(76) == "76";
    assert IndexOf("76", "6") == Some(1) && IndexOf("76", "7") == Some(0);
  }

  /** 7 is light purple and 0 dark purple. */
  lemma PurpleExamples()
    ensures ScoreColour(7) == LightPurple && ScoreColour(0) == DarkPurple
  {
    assert Digits(7) == "7" && Digits(0) == "0";
    assert "7"[0..1] == "7" && "0"[0..1] == "0";
    assert IndexOf("7", "6") == None && IndexOf("7", "7") == Some(0);
    assert IndexOf("0", "6") == None && IndexOf("0", "7") == None;
  }

  /** A one-character pattern occurs exactly where that character stands. */
  lemma OccursSingle(s: string, c: char, k: nat)
    ensures OccursAt(s, [c], k) <==> k < |s| && s[k] == c
  {
    if k < |s| {
      assert s[k..k + 1] == [s[k]];
    }
  }

  /** `indexOf` of a one-character pattern finds the first occurrence of that character. */
  lemma FirstIndex(s: string, c: char)
    ensures IndexOf(s, [c]).None? <==> Excludes(s, c)
    ensures IndexOf(s, [c]).Some? ==> var i := IndexOf(s, [c]).value;
      i < |s| && s[i] == c && Excludes(s[..i], c)
  {
    forall k: nat | k <= |s| ensures OccursAt(s, [c], k) <==> k < |s| && s[k] == c {
      OccursSingle(s, c, k);
    }
    if IndexOf(s, [c]).Some? {
      var i := IndexOf(s, [c]).value;
      assert forall k :: 0 <= k < i ==> s[..i][k] == s[k];
    }
  }

  lemma ExcludesPrefix(s: string, c: char, i: nat)
    requires i <= |s|
    ensures Excludes(s[..i], c) <==> forall k :: 0 <= k < i ==> s[k] != c
  {
    assert forall k :: 0 <= k < i ==> s[..i][k] == s[k];
  }

  /** Two first occurrences of the same character are the same position. */
  lemma FirstUnique(s: string, c: char, i: nat, j: nat)
    requires i < |s| && j < |s| && s[i] == c && s[j] == c
    requires Excludes(s[..i], c) && Excludes(s[..j], c)
    ensures i == j
  {
    ExcludesPrefix(s, c, i);
    ExcludesPrefix(s, c, j);
  }

  /** The first 6 comes before the first 7 exactly when some 7 has a 6 but no 7 before it. */
  lemma PinkOrder(s: string)
    ensures (IndexOf(s, "6").Some? && IndexOf(s, "7").Some? && IndexOf(s, "6").value < IndexOf(s, "7").value)
      <==> (exists j :: 0 <= j < |s| && s[j] == '7' && Excludes(s[..j], '7') && !Excludes(s[..j], '6'))
  {
    FirstIndex(s, '6');
    FirstIndex(s, '7');
    assert "6" == ['6'] && "7" == ['7'];
    if IndexOf(s, "6").Some? && IndexOf(s, "7").Some? && IndexOf(s, "6").value < IndexOf(s, "7").value {
      var i, j := IndexOf(s, "6").value, IndexOf(s, "7").value;
      assert s[..j][i] == '6';
    }
    if exists j :: 0 <= j < |s| && s[j] == '7' && Excludes(s[..j], '7') && !Excludes(s[..j], '6') {
      var j :| 0 <= j < |s| && s[j] == '7' && Excludes(s[..j], '7') && !Excludes(s[..j], '6');
      var i :| 0 <= i < j && s[..j][i] == '6';
      assert !Excludes(s, '7');
      var f7 := IndexOf(s, "7").value;
      FirstUnique(s, '7', f7, j);
      assert !Excludes(s, '6');
      var f6 := IndexOf(s, "6").value;
      ExcludesPrefix(s, '6', f6);
    }
  }

  // ---------------------------------------------------------------------
  // the game

  class Game {
    var score: nat
    var gameOver: bool
    var isPlaying: bool
    var dino: Body
    var obstacles: seq<Obstacle>
    var speed: real
    var lastObstacleX: real
    var gameStartTime: int
    var lastScoreUpdate: int

    /** The box is never below the ground and rests on it unless jumping; obstacles
        on screen; playing and game over never both; speed follows the score. */
    ghost predicate Valid()
      reads this
    {
      dino.y <= GroundY && (!dino.isJumping ==> dino.y == GroundY && dino.velocityY == 0.0) &&
      (forall k :: 0 <= k < |obstacles| ==> OnScreen(obstacles[k])) &&
      !(isPlaying && gameOver) &&
      speed == InitialSpeed + SpeedStep * ((score / 6) as real)
    }

    constructor ()
      ensures Valid() && !isPlaying && !gameOver && score == 0 && obstacles == []
      ensures dino == Body(GroundY, 0.0, false) && speed == InitialSpeed && lastObstacleX == 0.0
      ensures gameStartTime == 0 && lastScoreUpdate == 0
    {
      score := 0;
      gameOver := false;
      isPlaying := false;
      dino := Body(GroundY, 0.0, false);
      obstacles := [];
      speed := InitialSpeed;
      lastObstacleX := 0.0;
      gameStartTime := 0;
      lastScoreUpdate := 0;
    }

    /** `handleJump`: restart after a game over, start when idle, jump when on the ground. */
    method HandleJump(now: int)
      requires Valid()
      modifies this
      ensures Valid()
      ensures old(gameOver) ==>
        !gameOver && isPlaying && score == 0 && dino == Body(GroundY, 0.0, false) && obstacles == [] &&
        speed == InitialSpeed && lastObstacleX == 0.0 && gameStartTime == now && lastScoreUpdate == now
      ensures !old(gameOver) && !old(isPlaying) ==>
        isPlaying && !gameOver && gameStartTime == now && lastScoreUpdate == now &&
        score == old(score) && dino == old(dino) && obstacles == old(obstacles) && speed == old(speed) &&
        lastObstacleX == old(lastObstacleX)
      ensures !old(gameOver) && old(isPlaying) && !old(dino.isJumping) ==>
        dino == Body(old(dino.y), JumpPower, true) && isPlaying && !gameOver && score == old(score) &&
        obstacles == old(obstacles) && speed == old(speed) && lastObstacleX == old(lastObstacleX) &&
        gameStartTime == old(gameStartTime) && lastScoreUpdate == old(lastScoreUpdate)
      ensures !old(gameOver) && old(isPlaying) && old(dino.isJumping) ==> unchanged(this)
    {
      if gameOver {
        gameOver := false;
        score := 0;
        isPlaying := true;
        dino := Body(GroundY, 0.0, false);
        obstacles := [];
        speed := InitialSpeed;
        lastObstacleX := 0.0;
        gameStartTime := now;
        lastScoreUpdate := now;
      } else if !isPlaying {
        isPlaying := true;
        gameStartTime := now;
        lastScoreUpdate := now;
      } else if !dino.isJumping {
        dino := dino.(velocityY := JumpPower, isJumping := true);
      }
    }

    /** `handleKeyPress`: only the space key acts, exactly as the jump button does. */
    method HandleKeyPress(code: string, now: int)
      requires Valid()
      modifies this
      ensures Valid()
      ensures code != "Space" ==> unchanged(this)
      ensures code == "Space" && old(gameOver) ==>
        !gameOver && isPlaying && score == 0 && dino == Body(GroundY, 0.0, false) && obstacles == [] &&
        speed == InitialSpeed && lastObstacleX == 0.0 && gameStartTime == now && lastScoreUpdate == now
      ensures code == "Space" && !old(gameOver) && !old(isPlaying) ==>
        isPlaying && !gameOver && gameStartTime == now && lastScoreUpdate == now &&
        score == old(score) && dino == old(dino) && obstacles == old(obstacles) && speed == old(speed) &&
        lastObstacleX == old(lastObstacleX)
      ensures code == "Space" && !old(gameOver) && old(isPlaying) && !old(dino.isJumping) ==>
        dino == Body(old(dino.y), JumpPower, true) && isPlaying && !gameOver && score == old(score) &&
        obstacles == old(obstacles) && speed == old(speed) && lastObstacleX == old(lastObstacleX) &&
        gameStartTime == old(gameStartTime) && lastScoreUpdate == old(lastScoreUpdate)
      ensures code == "Space" && !old(gameOver) && old(isPlaying) && old(dino.isJumping) ==> unchanged(this)
    {
      if code == "Space" {
        HandleJump(now);
      }
    }

    /** One frame of `update`; `now` is the clock and `draw` the spawn draw in [0, 1). */
    method Update(now: int, draw: real)
      requires Valid()
      modifies this
      ensures Valid()
      ensures !old(isPlaying) || old(gameOver) ==> unchanged(this)
      ensures old(isPlaying) && !old(gameOver) ==>
        var spawn := ShouldSpawn(now - old(gameStartTime), draw, old(lastObstacleX));
        var spawned := if spawn then old(obstacles) + [NewObstacle()] else old(obstacles);
        dino == JumpStep(old(dino)) &&
        lastObstacleX == (if |spawned| > 0 then Rightmost(spawned) else old(lastObstacleX)) &&
        obstacles == Advance(spawned, old(speed)) &&
        gameOver == AnyCollision(dino.y, obstacles) &&
        isPlaying == !gameOver &&
        gameStartTime == old(gameStartTime)
      ensures old(isPlaying) && !old(gameOver) && now - old(lastScoreUpdate) >= ScoreInterval ==>
        score == old(score) + 1 && lastScoreUpdate == now &&
        speed == old(speed) + (if score % 6 == 0 then SpeedStep else 0.0)
      ensures old(isPlaying) && !old(gameOver) && now - old(lastScoreUpdate) < ScoreInterval ==>
        score == old(score) && lastScoreUpdate == old(lastScoreUpdate) && speed == old(speed)
    {
      if !isPlaying || gameOver {
        return;
      }
      dino := JumpStep(dino);
      MoveObstacles(now, draw);
      DetectCollision();
      UpdateScore(now);
    }

    /** Spawn, remember the rightmost obstacle, then shift and cull. */
    method MoveObstacles(now: int, draw: real)
      modifies this
      ensures var spawned := if ShouldSpawn(now - old(gameStartTime), draw, old(lastObstacleX))
          then old(obstacles) + [NewObstacle()] else old(obstacles);
        lastObstacleX == (if |spawned| > 0 then Rightmost(spawned) else old(lastObstacleX)) &&
        obstacles == Advance(spawned, old(speed))
      ensures dino == old(dino) && score == old(score) && speed == old(speed)
      ensures gameOver == old(gameOver) && isPlaying == old(isPlaying)
      ensures gameStartTime == old(gameStartTime) && lastScoreUpdate == old(lastScoreUpdate)
    {
      if ShouldSpawn(now - gameStartTime, draw, lastObstacleX) {
        obstacles := obstacles + [NewObstacle()];
        lastObstacleX := CanvasWidth;
      }
      if |obstacles| > 0 {
        lastObstacleX := Rightmost(obstacles);
      }
      obstacles := Advance(obstacles, speed);
    }

    /** Any obstacle touching the box ends the game. */
    method DetectCollision()
      modifies this
      ensures gameOver == (old(gameOver) || AnyCollision(dino.y, obstacles))
      ensures isPlaying == (old(isPlaying) && !AnyCollision(dino.y, obstacles))
      ensures dino == old(dino) && obstacles == old(obstacles) && score == old(score) && speed == old(speed)
      ensures lastObstacleX == old(lastObstacleX)
      ensures gameStartTime == old(gameStartTime) && lastScoreUpdate == old(lastScoreUpdate)
    {
      var hit := false;
      var k := 0;
      while k < |obstacles|
        invariant 0 <= k <= |obstacles|
        invariant hit <==> exists i :: 0 <= i < k && Collides(dino.y, obstacles[i])
        invariant gameOver == old(gameOver) && isPlaying == old(isPlaying)
      {
        if Collides(dino.y, obstacles[k]) {
          hit := true;
        }
        k := k + 1;
      }
      assert hit == AnyCollision(dino.y, obstacles);
      if hit {
        gameOver := true;
        isPlaying := false;
      }
    }

    /** A point per elapsed second, and 0.2 more speed on every sixth point. */
    method UpdateScore(now: int)
      requires speed == InitialSpeed + SpeedStep * ((score / 6) as real)
      modifies this
      ensures speed == InitialSpeed + SpeedStep * ((score / 6) as real)
      ensures now - old(lastScoreUpdate) >= ScoreInterval ==>
        score == old(score) + 1 && lastScoreUpdate == now &&
        speed == old(speed) + (if score % 6 == 0 then SpeedStep else 0.0)
      ensures now - old(lastScoreUpdate) < ScoreInterval ==>
        score == old(score) && lastScoreUpdate == old(lastScoreUpdate) && speed == old(speed)
      ensures dino == old(dino) && obstacles == old(obstacles) && lastObstacleX == old(lastObstacleX)
      ensures gameOver == old(gameOver) && isPlaying == old(isPlaying) && gameStartTime == old(gameStartTime)
    {
      if now - lastScoreUpdate >= ScoreInterval {
        SpeedSchedule(score);
        var newScore := score + 1;
        if newScore % 6 == 0 && newScore > 0 {
          speed := speed + SpeedStep;
        }
        score := newScore;
        lastScoreUpdate := now;
      }
    }
  }

  /** Speed is 2.5 plus 0.2 for every completed six points. */
  lemma SpeedSchedule(score: nat)
    ensures var next := InitialSpeed + SpeedStep * (((score + 1) / 6) as real);
      next == InitialSpeed + SpeedStep * ((score / 6) as real) + (if (score + 1) % 6 == 0 then SpeedStep else 0.0)
  {
  }
}
