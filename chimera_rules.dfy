/** The per-frame rules of the ChimeraBox game as functions on values: the
    player's movement, research gathered from labs, enemy spawning, the enemy
    steering guard, vault damage, the game-over latch and the restart. The
    class Game in module ChimeraGame carries out the same rules step by step
    on its fields and is proved to agree with Step below. */
module ChimeraRules {
  import opened Geometry

  // ---------------------------------------------------------------------
  // Constants of the game
  // ---------------------------------------------------------------------

  const PlayerSize: nat := 30
  const PlayerSpeed: int := 5
  /** Largest left and top coordinates that keep the player's box on screen. */
  const MaxPlayerX: int := ScreenWidth - PlayerSize
  const MaxPlayerY: int := ScreenHeight - PlayerSize
  const PlayerStartCenter: Point := Point(ScreenWidth / 2, ScreenHeight - 50)

  const EnemySize: nat := 15

  const MaxResearch: int := 1000
  const MaxIntegrity: int := 500
  const ResearchCooldown: int := 1000
  const DamagePerEnemy: int := 25

  /** enemy_spawn_timer: set once from the initial maximum and never again. */
  const InitialSpawnTimer: int := 2000
  /** enemy_spawn_timer_max at start and after a restart. */
  const InitialSpawnTimerMax: real := 2000.0
  const SpawnTimerFloor: real := 500.0
  const SpawnDecay: real := 0.995

  const VaultName: string := "VAULT"
  const WinMessage: string := "RESEARCH COMPLETE! Prometheus Secured!"
  const LossMessage: string := "VAULT BREACHED! Prometheus Stolen!"

  // ---------------------------------------------------------------------
  // Player movement
  // ---------------------------------------------------------------------

  /** The arrow keys held in this frame. */
  datatype Arrows = Arrows(up: bool, down: bool, left: bool, right: bool)

  /** The player's 30x30 box with its top-left corner at p. */
  function PlayerBox(p: Point): Rect {
    Rect(p.x, p.y, PlayerSize, PlayerSize)
  }

  /** The top-left corner that puts the player's centre at the start point. */
  const PlayerStart: Point :=
    Point(CenteredAt(PlayerSize, PlayerSize, PlayerStartCenter).x,
          CenteredAt(PlayerSize, PlayerSize, PlayerStartCenter).y)

  /** The speed for the key that increases the coordinate, minus the speed
      for the key that decreases it. */
  function AxisShift(decrease: bool, increase: bool): int {
    (if increase then PlayerSpeed else 0) - (if decrease then PlayerSpeed else 0)
  }

  function Clamp(v: int, lo: int, hi: int): int
    requires lo <= hi
  {
    if v < lo then lo else if v > hi then hi else v
  }

  /** Where Player.update leaves the top-left corner p. */
  function MovePlayer(p: Point, k: Arrows): (q: Point)
    ensures OnScreen(PlayerBox(q))
    ensures var tx := p.x + AxisShift(k.left, k.right);
            (0 <= tx <= MaxPlayerX ==> q.x == tx)
            && (tx < 0 ==> q.x == 0) && (tx > MaxPlayerX ==> q.x == MaxPlayerX)
    ensures var ty := p.y + AxisShift(k.up, k.down);
            (0 <= ty <= MaxPlayerY ==> q.y == ty)
            && (ty < 0 ==> q.y == 0) && (ty > MaxPlayerY ==> q.y == MaxPlayerY)
  {
    Point(Clamp(p.x + AxisShift(k.left, k.right), 0, MaxPlayerX),
          Clamp(p.y + AxisShift(k.up, k.down), 0, MaxPlayerY))
  }

  // ---------------------------------------------------------------------
  // Buildings and research
  // ---------------------------------------------------------------------

  /** A lab or the vault; only lastVisitTime ever changes. */
  datatype Building = Building(rect: Rect, name: string, researchValue: int, lastVisitTime: int)

  const Vault: Building :=
    Building(Rect(ScreenWidth / 2 - 50, ScreenHeight / 2 - 50, 100, 100), VaultName, 0, 0)
  const MaterialsLab: Building := Building(Rect(50, 50, 80, 60), "MATERIALS_LAB", 5, 0)
  const ComputerLab: Building := Building(Rect(ScreenWidth - 130, 50, 80, 60), "COMPUTER_LAB", 7, 0)
  const University: Building := Building(Rect(50, ScreenHeight - 110, 80, 60), "UNIVERSITY", 10, 0)

  /** buildings_group, in the order the buildings were added. */
  const InitialBuildings: seq<Building> := [Vault, MaterialsLab, ComputerLab, University]

  /** Everything of a building but its visit time is the same. */
  predicate SameZone(a: Building, b: Building) {
    a.rect == b.rect && a.name == b.name && a.researchValue == b.researchValue
  }

  /** The player overlaps b and b pays out now: not the vault, a positive
      value, and strictly more than the cooldown since its last visit. */
  predicate Collects(b: Building, player: Rect, now: int) {
    Overlaps(player, b.rect) && b.name != VaultName && b.researchValue > 0
    && now - b.lastVisitTime > ResearchCooldown
  }

  /** The building after this frame's visit. */
  function Visited(b: Building, player: Rect, now: int): Building {
    if Collects(b, player, now) then b.(lastVisitTime := now) else b
  }

  /** research_progress, the buildings, and whether the cap was reached. */
  datatype Visits = Visits(research: int, labs: seq<Building>, completed: bool)

  /** One pass of the lab loop's body. */
  function VisitOne(v: Visits, b: Building, player: Rect, now: int): Visits {
    if Collects(b, player, now) then
      var r := v.research + b.researchValue;
      Visits(if r >= MaxResearch then MaxResearch else r,
             v.labs + [b.(lastVisitTime := now)],
             v.completed || r >= MaxResearch)
    else
      Visits(v.research, v.labs + [b], v.completed)
  }

  /** The lab loop over the buildings in group order. */
  function VisitLabs(research: int, labs: seq<Building>, player: Rect, now: int): (v: Visits)
    ensures |v.labs| == |labs|
    ensures forall i :: 0 <= i < |labs| ==> v.labs[i] == Visited(labs[i], player, now)
    ensures research <= MaxResearch ==> research <= v.research <= MaxResearch
    decreases |labs|
  {
    if labs == [] then Visits(research, [], false)
    else VisitOne(VisitLabs(research, labs[..|labs| - 1], player, now), labs[|labs| - 1], player, now)
  }

  /** The research that the labs paying out this frame are worth together. */
  function Gained(labs: seq<Building>, player: Rect, now: int): int
    decreases |labs|
  {
    if labs == [] then 0
    else
      var b := labs[|labs| - 1];
      Gained(labs[..|labs| - 1], player, now) + (if Collects(b, player, now) then b.researchValue else 0)
  }

  /** Capping after every addition is capping the sum; the cap is reached
      exactly when something was gained and the sum gets to it. */
  lemma {:induction false} VisitLabsResearch(research: int, labs: seq<Building>, player: Rect, now: int)
    requires 0 <= research <= MaxResearch
    ensures var v := VisitLabs(research, labs, player, now);
            var g := Gained(labs, player, now);
            0 <= g
            && v.research == (if research + g >= MaxResearch then MaxResearch else research + g)
            && (v.completed <==> g > 0 && research + g >= MaxResearch)
    decreases |labs|
  {
    if labs != [] {
      VisitLabsResearch(research, labs[..|labs| - 1], player, now);
    }
  }

  lemma {:induction false} NoCollectNoChange(research: int, labs: seq<Building>, player: Rect, now: int)
    requires forall i :: 0 <= i < |labs| ==> !Collects(labs[i], player, now)
    ensures VisitLabs(research, labs, player, now) == Visits(research, labs, false)
    decreases |labs|
  {
    if labs != [] {
      var init := labs[..|labs| - 1];
      NoCollectNoChange(research, init, player, now);
      assert init + [labs[|labs| - 1]] == labs;
    }
  }

  /** A second pass in the same frame pays nothing and changes nothing. */
  lemma VisitLabsIdempotent(research: int, labs: seq<Building>, player: Rect, now: int)
    ensures var v := VisitLabs(research, labs, player, now);
            VisitLabs(v.research, v.labs, player, now) == Visits(v.research, v.labs, false)
  {
    var v := VisitLabs(research, labs, player, now);
    NoCollectNoChange(v.research, v.labs, player, now);
  }

  /** Within the cooldown after a visit, a lab that paid does not pay again;
      so when every lab that would pay the second time already paid the first
      time, the second pass pays nothing and changes nothing. */
  lemma RevisitWithinCooldown(research: int, labs: seq<Building>, player: Rect, now: int,
                              player2: Rect, now2: int)
    requires now2 <= now + ResearchCooldown
    ensures var v := VisitLabs(research, labs, player, now);
            forall i :: 0 <= i < |labs| && Collects(labs[i], player, now) ==> !Collects(v.labs[i], player2, now2)
    ensures (forall i :: 0 <= i < |labs| && Collects(labs[i], player2, now2) ==> Collects(labs[i], player, now))
            ==> var v := VisitLabs(research, labs, player, now);
                VisitLabs(v.research, v.labs, player2, now2) == Visits(v.research, v.labs, false)
  {
    var v := VisitLabs(research, labs, player, now);
    forall i | 0 <= i < |labs| && Collects(labs[i], player, now) ensures !Collects(v.labs[i], player2, now2) {
      assert v.labs[i] == Visited(labs[i], player, now);
    }
    if forall i :: 0 <= i < |labs| && Collects(labs[i], player2, now2) ==> Collects(labs[i], player, now) {
      forall i | 0 <= i < |v.labs| ensures !Collects(v.labs[i], player2, now2) {
        assert v.labs[i] == Visited(labs[i], player, now);
      }
      NoCollectNoChange(v.research, v.labs, player2, now2);
    }
  }

  // ---------------------------------------------------------------------
  // Enemies: spawn placement, steering guard, vault hits
  // ---------------------------------------------------------------------

  /** The edge random.choice picks in Enemy.__init__. */
  datatype Side = Top | Left | Right

  /** The range random.randint draws the position along the edge from. */
  predicate ValidSpawnOffset(side: Side, offset: int) {
    0 <= offset <= (if side == Top then ScreenWidth - EnemySize else ScreenHeight - EnemySize)
  }

  /** The range random.uniform draws the enemy's speed from. */
  predicate ValidSpeed(speed: real) {
    0.5 <= speed <= 1.5
  }

  /** A 15x15 box just outside the top, left or right edge of the screen and
      within that edge's span. */
  predicate OnSpawnEdge(r: Rect) {
    r.w == EnemySize && r.h == EnemySize
    && ((r.Bottom() == 0 && 0 <= r.x && r.Right() <= ScreenWidth)
        || (r.Right() == 0 && 0 <= r.y && r.Bottom() <= ScreenHeight)
        || (r.x == ScreenWidth && 0 <= r.y && r.Bottom() <= ScreenHeight))
  }

  /** Where Enemy.__init__ places a new enemy. */
  function SpawnRect(side: Side, offset: int): (r: Rect)
    requires ValidSpawnOffset(side, offset)
    ensures OnSpawnEdge(r)
    ensures !Overlaps(r, Screen) && r.y < ScreenHeight
    ensures side == Top ==> r.Bottom() == 0 && r.x == offset
    ensures side == Left ==> r.Right() == 0 && r.y == offset
    ensures side == Right ==> r.x == ScreenWidth && r.y == offset
  {
    match side
    case Top => Rect(offset, 0 - EnemySize, EnemySize, EnemySize)
    case Left => Rect(0 - EnemySize, offset, EnemySize, EnemySize)
    case Right => Rect(ScreenWidth, offset, EnemySize, EnemySize)
  }

  /** Every place on the three spawn edges can be drawn. */
  lemma SpawnReachesWholeEdge(r: Rect)
    requires OnSpawnEdge(r)
    ensures exists side, offset :: ValidSpawnOffset(side, offset) && SpawnRect(side, offset) == r
  {
    if r.Bottom() == 0 && 0 <= r.x && r.Right() <= ScreenWidth {
      assert SpawnRect(Top, r.x) == r;
    } else if r.Right() == 0 {
      assert SpawnRect(Left, r.y) == r;
    } else {
      assert SpawnRect(Right, r.y) == r;
    }
  }

  /** A red-team unit: its box, its speed, and the vault centre it heads for. */
  datatype Enemy = Enemy(rect: Rect, speed: real, target: Point)

  const VaultCenter: Point := Vault.rect.Center()

  function NewEnemy(side: Side, offset: int, speed: real): Enemy
    requires ValidSpawnOffset(side, offset)
  {
    Enemy(SpawnRect(side, offset), speed, VaultCenter)
  }

  /** Enemy.update, given the displacement d that the float step towards the
      target comes to: an enemy whose centre is on its target does not move. */
  function Steer(e: Enemy, d: Point): (e': Enemy)
    ensures e'.speed == e.speed && e'.target == e.target
    ensures e'.rect.w == e.rect.w && e'.rect.h == e.rect.h
    ensures e.rect.Center() == e.target ==> e' == e
  {
    if e.rect.Center() == e.target then e else e.(rect := e.rect.MovedBy(d))
  }

  /** enemies_group.update() */
  function SteerAll(es: seq<Enemy>, steer: Enemy -> Point): seq<Enemy> {
    seq(|es|, i requires 0 <= i < |es| => Steer(es[i], steer(es[i])))
  }

  /** The enemies overlapping the target, in group order. */
  function Hits(es: seq<Enemy>, target: Rect): (h: seq<Enemy>)
    ensures forall e :: e in h ==> e in es && Overlaps(target, e.rect)
  {
    if es == [] then []
    else (if Overlaps(target, es[0].rect) then [es[0]] else []) + Hits(es[1..], target)
  }

  /** The enemies left in the group once the overlapping ones are killed. */
  function Survivors(es: seq<Enemy>, target: Rect): (s: seq<Enemy>)
    ensures forall e :: e in s ==> e in es && !Overlaps(target, e.rect)
  {
    if es == [] then []
    else (if Overlaps(target, es[0].rect) then [] else [es[0]]) + Survivors(es[1..], target)
  }

  /** Killing on hit splits the group: every enemy is either removed once, as
      a hit, or kept. */
  lemma {:induction false} HitsSurvivorsPartition(es: seq<Enemy>, target: Rect)
    ensures multiset(Hits(es, target)) + multiset(Survivors(es, target)) == multiset(es)
  {
    if es != [] {
      var h := Hits(es[1..], target);
      var v := Survivors(es[1..], target);
      HitsSurvivorsPartition(es[1..], target);
      assert es == [es[0]] + es[1..];
      assert multiset(es) == multiset([es[0]]) + multiset(es[1..]);
      if Overlaps(target, es[0].rect) {
        assert Hits(es, target) == [es[0]] + h && Survivors(es, target) == v;
      } else {
        assert Hits(es, target) == h && Survivors(es, target) == [es[0]] + v;
      }
    }
  }

  // ---------------------------------------------------------------------
  // Vault damage
  // ---------------------------------------------------------------------

  /** vault_integrity, and whether the breach branch ran. */
  datatype Damage = Damage(integrity: int, breached: bool)

  /** One pass of the vault-hit loop's body. */
  function HitVault(d: Damage): Damage {
    var i := d.integrity - DamagePerEnemy;
    if i <= 0 then Damage(0, true) else Damage(i, d.breached)
  }

  /** The vault-hit loop over n hits: integrity never rises and never goes
      below 0, and a breach leaves it at exactly 0. */
  function DamageAfter(integrity: int, n: nat): (d: Damage)
    ensures 0 <= integrity ==> 0 <= d.integrity <= integrity
    ensures d.breached ==> d.integrity == 0 && n > 0
    ensures n == 0 ==> d == Damage(integrity, false)
  {
    if n == 0 then Damage(integrity, false) else HitVault(DamageAfter(integrity, n - 1))
  }

  /** Each hit costs 25 down to a floor of 0; the vault is breached exactly
      when there was a hit and the hits are worth at least the integrity. */
  lemma {:induction false} DamageClosedForm(integrity: int, n: nat)
    requires 0 <= integrity
    ensures DamageAfter(integrity, n)
            == Damage(if integrity - DamagePerEnemy * n <= 0 then 0 else integrity - DamagePerEnemy * n,
                      n > 0 && integrity <= DamagePerEnemy * n)
  {
    if n > 0 {
      DamageClosedForm(integrity, n - 1);
    }
  }

  /** From full integrity the twentieth hit, and no earlier one, breaches. */
  lemma TwentyHitsBreach()
    ensures DamageAfter(MaxIntegrity, 20) == Damage(0, true)
    ensures forall k: nat :: k < 20 ==> DamageAfter(MaxIntegrity, k) == Damage(MaxIntegrity - DamagePerEnemy * k, false)
  {
    DamageClosedForm(MaxIntegrity, 20);
    forall k: nat | k < 20
      ensures DamageAfter(MaxIntegrity, k) == Damage(MaxIntegrity - DamagePerEnemy * k, false)
    {
      DamageClosedForm(MaxIntegrity, k);
    }
  }

  // ---------------------------------------------------------------------
  // Spawn interval decay
  // ---------------------------------------------------------------------

  /** max(500, enemy_spawn_timer_max * 0.995) */
  function DecaySpawnTimer(m: real): (r: real)
    ensures SpawnTimerFloor <= r
    ensures SpawnTimerFloor <= m ==> r <= m
    ensures SpawnTimerFloor < m ==> r < m
  {
    if m * SpawnDecay > SpawnTimerFloor then m * SpawnDecay else SpawnTimerFloor
  }

  // ---------------------------------------------------------------------
  // The whole game state and one frame
  // ---------------------------------------------------------------------

  /** Everything the frame loop reads and writes: the player's corner, the
      buildings' group, the enemies' group and the module-level variables. */
  datatype GameState = GameState(
    player: Point,
    buildings: seq<Building>,
    enemies: seq<Enemy>,
    research: int,
    integrity: int,
    spawnTimerMax: real,
    spawnTimer: int,
    lastSpawnTime: int,
    gameOver: bool,
    win: bool,
    message: string)

  /** What one frame samples: the clock, the keys, the quit event, the random
      draws for a possible spawn, the displacement each enemy's float step
      comes to, and the clock read again by the restart. */
  datatype TickInput = TickInput(
    now: int,
    arrows: Arrows,
    spawnSide: Side,
    spawnOffset: int,
    spawnSpeed: real,
    steer: Enemy -> Point,
    quitEvent: bool,
    restartHeld: bool,
    quitHeld: bool,
    restartTime: int)

  predicate ValidInput(input: TickInput) {
    ValidSpawnOffset(input.spawnSide, input.spawnOffset) && ValidSpeed(input.spawnSpeed)
  }

  /** The state before the first frame, with the clock at startTime: the
      game invariant holds, nothing is spawned yet, and the game is running. */
  function InitialState(startTime: int): (s: GameState)
    ensures Inv(s)
    ensures s.enemies == [] && s.research == 0 && s.integrity == MaxIntegrity && !s.gameOver
    ensures PlayerBox(s.player).Center() == PlayerStartCenter && s.lastSpawnTime == startTime
  {
    GameState(PlayerStart, InitialBuildings, [], 0, MaxIntegrity,
              InitialSpawnTimerMax, InitialSpawnTimer, startTime, false, false, "")
  }

  function AfterMove(s: GameState, k: Arrows): GameState {
    s.(player := MovePlayer(s.player, k))
  }

  function AfterResearch(s: GameState, now: int): GameState {
    var v := VisitLabs(s.research, s.buildings, PlayerBox(s.player), now);
    s.(research := v.research, buildings := v.labs,
       gameOver := s.gameOver || v.completed, win := s.win || v.completed,
       message := if v.completed then WinMessage else s.message)
  }

  /** The spawn gate compares with enemy_spawn_timer, not with the decaying
      maximum. */
  predicate SpawnDue(s: GameState, now: int) {
    now - s.lastSpawnTime > s.spawnTimer
  }

  function AfterSpawn(s: GameState, now: int, side: Side, offset: int, speed: real): (t: GameState)
    requires ValidSpawnOffset(side, offset)
    ensures |t.enemies| == |s.enemies| + (if SpawnDue(s, now) then 1 else 0)
    ensures t.enemies[..|s.enemies|] == s.enemies
    ensures SpawnDue(s, now) ==> OnSpawnEdge(t.enemies[|s.enemies|].rect) && t.lastSpawnTime == now
    ensures !SpawnDue(s, now) ==> t == s
    ensures t.spawnTimer == s.spawnTimer
    ensures SpawnTimerFloor <= s.spawnTimerMax ==> SpawnTimerFloor <= t.spawnTimerMax <= s.spawnTimerMax
  {
    if SpawnDue(s, now) then
      s.(spawnTimerMax := DecaySpawnTimer(s.spawnTimerMax),
         enemies := s.enemies + [NewEnemy(side, offset, speed)],
         lastSpawnTime := now)
    else s
  }

  function AfterSteer(s: GameState, steer: Enemy -> Point): GameState {
    s.(enemies := SteerAll(s.enemies, steer))
  }

  function AfterVault(s: GameState): (t: GameState)
    ensures |t.enemies| <= |s.enemies|
    ensures forall e :: e in t.enemies ==> e in s.enemies && !Overlaps(Vault.rect, e.rect)
    ensures 0 <= s.integrity ==> 0 <= t.integrity <= s.integrity
    ensures t.integrity < s.integrity ==> |t.enemies| < |s.enemies|
    ensures t.gameOver && !s.gameOver ==> t.integrity == 0 && !t.win && t.message == LossMessage
  {
    HitsSurvivorsPartition(s.enemies, Vault.rect);
    assert |Hits(s.enemies, Vault.rect)| + |Survivors(s.enemies, Vault.rect)| == |s.enemies| by {
      assert |multiset(Hits(s.enemies, Vault.rect)) + multiset(Survivors(s.enemies, Vault.rect))| == |multiset(s.enemies)|;
    }
    var d := DamageAfter(s.integrity, |Hits(s.enemies, Vault.rect)|);
    s.(enemies := Survivors(s.enemies, Vault.rect), integrity := d.integrity,
       gameOver := s.gameOver || d.breached, win := s.win && !d.breached,
       message := if d.breached then LossMessage else s.message)
  }

  /** The state just before the vault collisions are resolved. */
  function BeforeVault(s: GameState, input: TickInput): GameState
    requires ValidInput(input)
  {
    AfterSteer(AfterSpawn(AfterResearch(AfterMove(s, input.arrows), input.now),
                          input.now, input.spawnSide, input.spawnOffset, input.spawnSpeed),
               input.steer)
  }

  /** The body of `if not game_over`: the buildings are kept, the spawn gate
      is kept, research only grows and integrity only falls, and at most one
      enemy is added. */
  function Logic(s: GameState, input: TickInput): (t: GameState)
    requires ValidInput(input)
    ensures |t.buildings| == |s.buildings| && t.spawnTimer == s.spawnTimer
    ensures forall i :: 0 <= i < |s.buildings| ==> SameZone(t.buildings[i], s.buildings[i])
    ensures 0 <= s.research <= MaxResearch ==> s.research <= t.research <= MaxResearch
    ensures 0 <= s.integrity ==> 0 <= t.integrity <= s.integrity
    ensures |t.enemies| <= |s.enemies| + 1
    ensures t.player == MovePlayer(s.player, input.arrows)
  {
    AfterVault(BeforeVault(s, input))
  }

  function AfterLogic(s: GameState, input: TickInput): GameState
    requires ValidInput(input)
  {
    if s.gameOver then s else Logic(s, input)
  }

  /** The restart block; the buildings and enemy_spawn_timer are not touched.
      From any state whose spawn gate is the fixed one, it yields a running
      game that satisfies the invariant. */
  function Restart(s: GameState, time: int): (t: GameState)
    ensures t.buildings == s.buildings && t.spawnTimer == s.spawnTimer
    ensures PlayerBox(t.player).Center() == PlayerStartCenter
    ensures t.enemies == [] && t.research == 0 && t.integrity == MaxIntegrity && !t.gameOver
    ensures s.spawnTimer == InitialSpawnTimer ==> Inv(t)
  {
    s.(research := 0, integrity := MaxIntegrity, enemies := [], player := PlayerStart,
       spawnTimerMax := InitialSpawnTimerMax, lastSpawnTime := time,
       gameOver := false, win := false, message := "")
  }

  /** One iteration of the frame loop; the game-over screen is checked after
      the game logic of the same frame. */
  function Step(s: GameState, input: TickInput): (t: GameState)
    requires ValidInput(input)
    ensures |t.buildings| == |s.buildings| && t.spawnTimer == s.spawnTimer
    ensures s.gameOver && !input.restartHeld ==> t == s
    ensures input.restartHeld ==> !t.gameOver
    ensures !(AfterLogic(s, input).gameOver && input.restartHeld) ==> t == AfterLogic(s, input)
  {
    var s1 := AfterLogic(s, input);
    if s1.gameOver && input.restartHeld then Restart(s1, input.restartTime) else s1
  }

  /** The value of `running` after the frame. */
  predicate KeepsRunning(s: GameState, input: TickInput)
    requires ValidInput(input)
  {
    !input.quitEvent && !(AfterLogic(s, input).gameOver && input.quitHeld)
  }

  /** This frame's lab loop reaches the research cap. */
  predicate CompletesResearch(s: GameState, input: TickInput) {
    VisitLabs(s.research, s.buildings, PlayerBox(MovePlayer(s.player, input.arrows)), input.now).completed
  }

  /** This frame's vault-hit loop runs the breach branch. */
  predicate BreachesVault(s: GameState, input: TickInput)
    requires ValidInput(input)
  {
    DamageAfter(s.integrity, |Hits(BeforeVault(s, input).enemies, Vault.rect)|).breached
  }

  // ---------------------------------------------------------------------
  // Invariant and properties of a frame
  // ---------------------------------------------------------------------

  /** The bounds the counters keep and how the outcome flags, the message and
      the counters agree. */
  predicate Inv(s: GameState) {
    && 0 <= s.research <= MaxResearch
    && 0 <= s.integrity <= MaxIntegrity
    && SpawnTimerFloor <= s.spawnTimerMax <= InitialSpawnTimerMax
    && s.spawnTimer == InitialSpawnTimer
    && OnScreen(PlayerBox(s.player))
    && (!s.gameOver ==> s.research < MaxResearch && s.integrity > 0 && !s.win && s.message == "")
    && (s.gameOver ==> (s.win <==> s.integrity > 0) && (s.win ==> s.research == MaxResearch)
                       && s.message == (if s.win then WinMessage else LossMessage))
  }

  /** A running frame ends the game when the research cap is reached or the
      vault is breached; a breach later in the frame overrides a win. */
  lemma LogicOutcome(s: GameState, input: TickInput)
    requires Inv(s) && !s.gameOver && ValidInput(input)
    ensures var t := Logic(s, input);
            var c := CompletesResearch(s, input);
            var b := BreachesVault(s, input);
            (t.gameOver <==> c || b)
            && (t.win <==> c && !b)
            && t.message == (if b then LossMessage else if c then WinMessage else "")
            && (c ==> t.research == MaxResearch)
            && (!c ==> t.research < MaxResearch)
            && (b <==> t.integrity == 0)
  {
    var m := AfterMove(s, input.arrows);
    VisitLabsResearch(s.research, s.buildings, PlayerBox(m.player), input.now);
    var bv := BeforeVault(s, input);
    DamageClosedForm(s.integrity, |Hits(bv.enemies, Vault.rect)|);
  }

  lemma BreachOverridesWin(s: GameState, input: TickInput)
    requires Inv(s) && !s.gameOver && ValidInput(input)
    requires CompletesResearch(s, input) && BreachesVault(s, input)
    ensures var t := AfterLogic(s, input);
            t.gameOver && !t.win && t.message == LossMessage && t.integrity == 0
  {
    LogicOutcome(s, input);
  }

  /** Every frame keeps the invariant. */
  lemma StepPreservesInv(s: GameState, input: TickInput)
    requires Inv(s) && ValidInput(input)
    ensures Inv(Step(s, input))
  {
    if !s.gameOver {
      LogicOutcome(s, input);
      var bv := BeforeVault(s, input);
      DamageClosedForm(s.integrity, |Hits(bv.enemies, Vault.rect)|);
    }
  }

  /** While the game is over a frame changes nothing unless R is held. */
  lemma GameOverFreezes(s: GameState, input: TickInput)
    requires s.gameOver && ValidInput(input) && !input.restartHeld
    ensures Step(s, input) == s
  {
  }

  /** At most one enemy per frame, only when strictly more than
      enemy_spawn_timer has passed, and then the spawn time is now. */
  lemma SpawnRule(s: GameState, input: TickInput)
    requires Inv(s) && !s.gameOver && ValidInput(input)
    ensures var due := input.now - s.lastSpawnTime > InitialSpawnTimer;
            var bv := BeforeVault(s, input);
            |bv.enemies| == |s.enemies| + (if due then 1 else 0)
            && Logic(s, input).lastSpawnTime == (if due then input.now else s.lastSpawnTime)
            && (due ==> Steer(NewEnemy(input.spawnSide, input.spawnOffset, input.spawnSpeed),
                              input.steer(NewEnemy(input.spawnSide, input.spawnOffset, input.spawnSpeed)))
                        == bv.enemies[|s.enemies|])
  {
  }

  /** The decaying maximum has no influence on anything but itself. */
  lemma SpawnIgnoresTimerMax(s: GameState, input: TickInput, m: real)
    requires ValidInput(input)
    ensures Logic(s.(spawnTimerMax := m), input).(spawnTimerMax := 0.0)
            == Logic(s, input).(spawnTimerMax := 0.0)
  {
  }

  /** Between restarts the maximum never grows and never passes the floor. */
  lemma TimerMaxNonIncreasing(s: GameState, input: TickInput)
    requires Inv(s) && ValidInput(input)
    ensures SpawnTimerFloor <= AfterLogic(s, input).spawnTimerMax <= s.spawnTimerMax
    ensures AfterLogic(s, input).spawnTimer == s.spawnTimer
  {
  }

  /** Each enemy on the vault is removed once and costs 25 integrity, down to
      0; the breach branch runs exactly when that reaches 0. */
  lemma VaultHitsResolved(s: GameState)
    requires 0 < s.integrity
    ensures var t := AfterVault(s);
            var hits := Hits(s.enemies, Vault.rect);
            multiset(t.enemies) + multiset(hits) == multiset(s.enemies)
            && (forall e :: e in t.enemies ==> !Overlaps(Vault.rect, e.rect))
            && t.integrity == (if s.integrity - DamagePerEnemy * |hits| <= 0 then 0
                               else s.integrity - DamagePerEnemy * |hits|)
            && (t.integrity == 0 ==> t.message == LossMessage && t.gameOver && !t.win)
            && (t.integrity > 0 ==> t.message == s.message && t.gameOver == s.gameOver && t.win == s.win)
  {
    HitsSurvivorsPartition(s.enemies, Vault.rect);
    assert |Hits(s.enemies, Vault.rect)| + |Survivors(s.enemies, Vault.rect)| == |s.enemies| by {
      assert |multiset(Hits(s.enemies, Vault.rect)) + multiset(Survivors(s.enemies, Vault.rect))| == |multiset(s.enemies)|;
    }
    DamageClosedForm(s.integrity, |Hits(s.enemies, Vault.rect)|);
  }

  /** The restart resets the counters, the enemies, the player and the spawn
      state, and leaves the buildings as the frame's logic left them. */
  lemma RestartResets(s: GameState, input: TickInput)
    requires ValidInput(input) && input.restartHeld && AfterLogic(s, input).gameOver
    ensures var t := Step(s, input);
            t.research == 0 && t.integrity == MaxIntegrity && t.enemies == []
            && PlayerBox(t.player).Center() == PlayerStartCenter
            && t.spawnTimerMax == InitialSpawnTimerMax && t.lastSpawnTime == input.restartTime
            && !t.gameOver && !t.win && t.message == ""
            && t.buildings == AfterLogic(s, input).buildings
  {
  }

  /** No frame moves, renames or revalues a building. */
  lemma ZonesFixed(s: GameState, input: TickInput)
    requires ValidInput(input)
    ensures |Step(s, input).buildings| == |s.buildings|
    ensures forall i :: 0 <= i < |s.buildings| ==> SameZone(Step(s, input).buildings[i], s.buildings[i])
  {
    if !s.gameOver {
      var m := AfterMove(s, input.arrows);
      var v := VisitLabs(s.research, s.buildings, PlayerBox(m.player), input.now);
      assert Logic(s, input).buildings == v.labs;
      forall i | 0 <= i < |s.buildings| ensures SameZone(v.labs[i], s.buildings[i]) {
        assert v.labs[i] == Visited(s.buildings[i], PlayerBox(m.player), input.now);
      }
    }
  }
}
