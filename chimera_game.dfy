/** The ChimeraBox frame loop as objects that change in place: the Player
    sprite moves its rectangle field by field, and Game holds the groups and
    module-level variables that the loop reassigns. Each method's new state
    is the corresponding function of module ChimeraRules applied to the old
    state, so every property proved there holds of these objects. */
module ChimeraGame {
  import opened Geometry
  import opened ChimeraRules

  class Player {
    var x: int
    var y: int
    const speed: int := PlayerSpeed

    /** The top-left corner of the player's rectangle. */
    function Corner(): Point
      reads this
    {
      Point(x, y)
    }

    /** Player.__init__: the rectangle centred near the bottom of the screen. */
    constructor ()
      ensures Corner() == PlayerStart
      ensures PlayerBox(Corner()).Center() == PlayerStartCenter
    {
      x := PlayerStartCenter.x - PlayerSize / 2;
      y := PlayerStartCenter.y - PlayerSize / 2;
    }

    /** Player.update: move by the held arrows, then keep the box on screen. */
    method Update(k: Arrows)
      modifies this
      ensures Corner() == MovePlayer(old(Corner()), k)
    {
      if k.up { y := y - speed; }
      if k.down { y := y + speed; }
      if k.left { x := x - speed; }
      if k.right { x := x + speed; }
      if x < 0 { x := 0; }
      if x + PlayerSize > ScreenWidth { x := ScreenWidth - PlayerSize; }
      if y < 0 { y := 0; }
      if y + PlayerSize > ScreenHeight { y := ScreenHeight - PlayerSize; }
    }
  }

  /** The lab loop's result over one more building is one more pass of its body. */
  lemma VisitLabsPrefixStep(research: int, labs: seq<Building>, box: Rect, now: int, i: nat)
    requires i < |labs|
    ensures VisitLabs(research, labs[..i + 1], box, now)
            == VisitOne(VisitLabs(research, labs[..i], box, now), labs[i], box, now)
  {
    assert labs[..i + 1][..i] == labs[..i];
  }

  /** The body of the lab loop over the buildings in group order, with the
      sprites' visit times updated in the sequence; completed says whether
      research reached the cap on the way. */
  method VisitEachLab(research: int, buildings: seq<Building>, box: Rect, now: int)
    returns (gained: int, labs: seq<Building>, completed: bool)
    ensures Visits(gained, labs, completed) == VisitLabs(research, buildings, box, now)
  {
    gained, labs, completed := research, buildings, false;
    ghost var v := Visits(research, [], false);
    var i := 0;
    while i < |labs|
      invariant 0 <= i <= |labs| == |buildings|
      invariant v == VisitLabs(research, buildings[..i], box, now)
      invariant gained == v.research && completed == v.completed
      invariant forall j :: 0 <= j < i ==> labs[j] == Visited(buildings[j], box, now)
      invariant forall j :: i <= j < |labs| ==> labs[j] == buildings[j]
    {
      var lab := labs[i];
      VisitLabsPrefixStep(research, buildings, box, now, i);
      if Overlaps(box, lab.rect) {
        if lab.name != VaultName && lab.researchValue > 0 {
          if now - lab.lastVisitTime > ResearchCooldown {
            gained := gained + lab.researchValue;
            labs := labs[i := lab.(lastVisitTime := now)];
            if gained >= MaxResearch {
              gained := MaxResearch;
              completed := true;
            }
          }
        }
      }
      v := VisitOne(v, lab, box, now);
      i := i + 1;
    }
    assert buildings[..i] == buildings;
    assert labs == v.labs;
  }

  class Game {
    const player: Player
    var buildings: seq<Building>
    var enemies: seq<Enemy>
    var research: int
    var integrity: int
    var spawnTimerMax: real
    var spawnTimer: int
    var lastSpawnTime: int
    var gameOver: bool
    var win: bool
    var message: string

    function State(): GameState
      reads this, player
    {
      GameState(player.Corner(), buildings, enemies, research, integrity,
                spawnTimerMax, spawnTimer, lastSpawnTime, gameOver, win, message)
    }

    ghost predicate Valid()
      reads this, player
    {
      Inv(State())
    }

    /** The set-up section, with the clock reading startTime. */
    constructor (startTime: int)
      ensures Valid() && fresh(player)
      ensures State() == InitialState(startTime)
    {
      player := new Player();
      buildings := InitialBuildings;
      enemies := [];
      research := 0;
      integrity := MaxIntegrity;
      spawnTimerMax := InitialSpawnTimerMax;
      spawnTimer := InitialSpawnTimer;
      lastSpawnTime := startTime;
      gameOver := false;
      win := false;
      message := "";
    }

    /** The lab loop: every building the player overlaps that is not the
        vault, has a positive value and is off cooldown pays its value. */
    method GatherResearch(now: int)
      modifies this
      ensures State() == AfterResearch(old(State()), now)
    {
      var gained, labs, completed := VisitEachLab(research, buildings, PlayerBox(player.Corner()), now);
      research, buildings := gained, labs;
      if completed {
        win, gameOver, message := true, true, WinMessage;
      }
    }

    /** The spawn block, with the random draws as parameters. */
    method SpawnEnemy(now: int, side: Side, offset: int, speed: real)
      requires ValidSpawnOffset(side, offset)
      modifies this
      ensures State() == AfterSpawn(old(State()), now, side, offset, speed)
    {
      if now - lastSpawnTime > spawnTimer {
        spawnTimerMax := DecaySpawnTimer(spawnTimerMax);
        var e := NewEnemy(side, offset, speed);
        enemies := enemies + [e];
        lastSpawnTime := now;
      }
    }

    /** enemies_group.update(): each enemy takes its step. */
    method UpdateEnemies(steer: Enemy -> Point)
      modifies this
      ensures State() == AfterSteer(old(State()), steer)
    {
      ghost var s0 := State();
      ghost var es := enemies;
      var i := 0;
      while i < |enemies|
        invariant 0 <= i <= |enemies| == |es|
        invariant State() == s0.(enemies := enemies)
        invariant forall j :: 0 <= j < i ==> enemies[j] == Steer(es[j], steer(es[j]))
        invariant forall j :: i <= j < |enemies| ==> enemies[j] == es[j]
      {
        enemies := enemies[i := Steer(enemies[i], steer(enemies[i]))];
        i := i + 1;
      }
      assert enemies == SteerAll(es, steer);
    }

    /** Kill the enemies on the vault, then the damage loop over them. */
    method ResolveVaultHits()
      modifies this
      ensures State() == AfterVault(old(State()))
    {
      ghost var s0 := State();
      var hits := Hits(enemies, Vault.rect);
      enemies := Survivors(enemies, Vault.rect);
      var k := 0;
      while k < |hits|
        invariant 0 <= k <= |hits|
        invariant var d := DamageAfter(s0.integrity, k);
                  State() == s0.(enemies := Survivors(s0.enemies, Vault.rect), integrity := d.integrity,
                                 gameOver := s0.gameOver || d.breached, win := s0.win && !d.breached,
                                 message := if d.breached then LossMessage else s0.message)
      {
        integrity := integrity - DamagePerEnemy;
        if integrity <= 0 {
          integrity := 0;
          gameOver := true;
          win := false;
          message := LossMessage;
        }
        k := k + 1;
      }
    }

    /** The restart block. */
    method Restart(time: int)
      modifies this, player
      ensures State() == ChimeraRules.Restart(old(State()), time)
    {
      research := 0;
      integrity := MaxIntegrity;
      enemies := [];
      player.x := PlayerStartCenter.x - PlayerSize / 2;
      player.y := PlayerStartCenter.y - PlayerSize / 2;
      spawnTimerMax := InitialSpawnTimerMax;
      lastSpawnTime := time;
      gameOver := false;
      win := false;
      message := "";
    }

    /** One iteration of `while running`, without the drawing; the result is
        the new value of `running`. */
    method Tick(input: TickInput) returns (running: bool)
      requires Valid() && ValidInput(input)
      modifies this, player
      ensures Valid()
      ensures State() == Step(old(State()), input)
      ensures running == KeepsRunning(old(State()), input)
    {
      ghost var s0 := State();
      running := true;
      if input.quitEvent {
        running := false;
      }
      if !gameOver {
        player.Update(input.arrows);
        assert State() == AfterMove(s0, input.arrows);
        GatherResearch(input.now);
        SpawnEnemy(input.now, input.spawnSide, input.spawnOffset, input.spawnSpeed);
        UpdateEnemies(input.steer);
        ResolveVaultHits();
      }
      assert State() == AfterLogic(s0, input);
      if gameOver {
        if input.restartHeld {
          Restart(input.restartTime);
        }
        if input.quitHeld {
          running := false;
        }
      }
      StepPreservesInv(s0, input);
    }
  }
}
