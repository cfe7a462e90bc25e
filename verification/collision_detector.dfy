/**
 * Collisions between players and the other entities (domain/game/CollisionDetector.java).
 * Every check compares cells by row and column, visits the players in list order and, for
 * each, the other entities in list order.
 */
module Collisions {
  import opened Positions
  import opened Boards
  import opened Players
  import opened Fruits
  import opened Enemies
  import opened Campfires
  import opened Wrappers

  /** A cell is blocked when it is off the board or not walkable. */
  function IsBlocked(board: Board, pos: Position): (r: bool)
    reads board.cells
    ensures r <==> !board.IsWalkable(pos)
  {
    if !board.IsInside(pos) then true else !board.IsWalkable(pos)
  }

  /** Same row and same column. */
  predicate SameCell(a: Position, b: Position) {
    a.row == b.row && a.col == b.col
  }

  /** Cells are compared by coordinates, which for positions is plain equality. */
  lemma SameCellIsEquality(a: Position, b: Position)
    ensures SameCell(a, b) <==> a == b
  {
  }

  /** The part of a fruit the player-fruit check looks at, as it was when the check began. */
  datatype FruitView = FruitView(position: Position, collected: bool, frozen: bool, spiked: bool, points: int)

  ghost function ViewOf<B>(f: Fruit<B>): FruitView
    reads f
  {
    FruitView(f.position, f.collected, f.frozen, f.kind == Cactus && f.hasSpikesDangerous, f.GetPoints())
  }

  ghost function Views<B>(fruits: seq<Fruit<B>>): (r: seq<FruitView>)
    reads set i | 0 <= i < |fruits| :: fruits[i]
    ensures |r| == |fruits| && forall i :: 0 <= i < |fruits| ==> r[i] == ViewOf(fruits[i])
  {
    seq(|fruits|, i requires 0 <= i < |fruits| reads fruits => ViewOf(fruits[i]))
  }

  ghost function PositionsOf(players: seq<Player>): (r: seq<Position>)
    reads set i | 0 <= i < |players| :: players[i]
    ensures |r| == |players| && forall i :: 0 <= i < |players| ==> r[i] == players[i].position
  {
    seq(|players|, i requires 0 <= i < |players| reads players => players[i].position)
  }

  /** A fruit that a player on its cell collects: not yet collected, not frozen, not a cactus with spikes out. */
  predicate Collectible(v: FruitView) {
    !v.collected && !v.frozen && !v.spiked
  }

  /** A cactus whose spikes hurt: spikes out, not collected, not frozen. */
  predicate Hurts(v: FruitView) {
    !v.collected && !v.frozen && v.spiked
  }

  /** The index of the first player standing on cell q. */
  function FirstOnCell(cells: seq<Position>, q: Position): (r: Option<nat>)
    ensures r.Some? ==> r.value < |cells| && cells[r.value] == q && forall k :: 0 <= k < r.value ==> cells[k] != q
    ensures r.None? <==> q !in cells
  {
    if |cells| == 0 then None
    else if cells[0] == q then Some(0)
    else match FirstOnCell(cells[1..], q)
      case None => None
      case Some(k) => Some(k + 1)
  }

  /** Points player i earns from the fruits: those it is the first player to stand on. */
  function Earned(cells: seq<Position>, fruits: seq<FruitView>, i: nat): int
    decreases |fruits|
  {
    if |fruits| == 0 then 0
    else
      var last := fruits[|fruits| - 1];
      Earned(cells, fruits[..|fruits| - 1], i)
        + (if Collectible(last) && FirstOnCell(cells, last.position) == Some(i) then last.points else 0)
  }

  /** Points earned by players 0 .. n-1 together. */
  function TotalEarned(cells: seq<Position>, fruits: seq<FruitView>, n: nat): int {
    if n == 0 then 0 else TotalEarned(cells, fruits, n - 1) + Earned(cells, fruits, n - 1)
  }

  /** Points of the collectible fruits some player stands on. */
  function Awarded(cells: seq<Position>, fruits: seq<FruitView>): int
    decreases |fruits|
  {
    if |fruits| == 0 then 0
    else
      var last := fruits[|fruits| - 1];
      Awarded(cells, fruits[..|fruits| - 1]) + (if Collectible(last) && last.position in cells then last.points else 0)
  }

  /** The last fruit's points go to the first player on it, if that player is among the first n. */
  lemma {:induction false} TotalEarnedLast(cells: seq<Position>, fruits: seq<FruitView>, n: nat)
    requires |fruits| > 0
    ensures var last := fruits[|fruits| - 1];
      var first := FirstOnCell(cells, last.position);
      TotalEarned(cells, fruits, n) == TotalEarned(cells, fruits[..|fruits| - 1], n)
        + (if Collectible(last) && first.Some? && first.value < n then last.points else 0)
  {
    if n > 0 {
      TotalEarnedLast(cells, fruits, n - 1);
    }
  }

  /**
   * The player-fruit check pays out every fruit it collects exactly once: the players'
   * earnings add up to the points of the collectible fruits that some player stands on.
   */
  lemma {:induction false} PointsPaidOnce(cells: seq<Position>, fruits: seq<FruitView>)
    ensures TotalEarned(cells, fruits, |cells|) == Awarded(cells, fruits)
    decreases |fruits|
  {
    if |fruits| == 0 {
      ZeroEarned(cells, fruits, |cells|);
    } else {
      PointsPaidOnce(cells, fruits[..|fruits| - 1]);
      TotalEarnedLast(cells, fruits, |cells|);
    }
  }

  lemma {:induction false} ZeroEarned(cells: seq<Position>, fruits: seq<FruitView>, n: nat)
    requires |fruits| == 0
    ensures TotalEarned(cells, fruits, n) == 0
  {
    if n > 0 {
      ZeroEarned(cells, fruits, n - 1);
    }
  }

  /** The cells of the cacti that hurt. */
  function HurtingCells(fruits: seq<FruitView>): (r: seq<Position>)
    ensures forall q :: q in r <==> exists j :: 0 <= j < |fruits| && Hurts(fruits[j]) && fruits[j].position == q
    decreases |fruits|
  {
    if |fruits| == 0 then []
    else
      var last := fruits[|fruits| - 1];
      HurtingCells(fruits[..|fruits| - 1]) + (if Hurts(last) then [last.position] else [])
  }

  /**
   * Whether a fruit ends collected: it was already, or it is collectible and some player
   * stands on it.
   */
  predicate EndsCollected(cells: seq<Position>, v: FruitView) {
    v.collected || (Collectible(v) && v.position in cells)
  }

  /** What one player does to one fruit. */
  datatype Touch = Miss | Pricked | Collects

  /** The effect of a player on cell q meeting a fruit as it is now. */
  function TouchOf(v: FruitView, q: Position): (r: Touch)
    ensures r == Pricked <==> Hurts(v) && v.position == q
    ensures r == Collects <==> Collectible(v) && v.position == q
  {
    if v.collected || v.frozen then Miss
    else if v.spiked && SameCell(v.position, q) then Pricked
    else if SameCell(q, v.position) then Collects
    else Miss
  }

  /**
   * Player against fruits. A player on the cell of a cactus that hurts is hit; a player on
   * the cell of a collectible fruit collects it and earns its points (the first player in
   * list order gets it). Collected and frozen fruits are skipped. Dead players take part.
   */
  method CheckPlayerFruit<B>(players: seq<Player>, fruits: seq<Fruit<B>>)
    requires Distinct(players) && Distinct(fruits)
    requires forall i :: 0 <= i < |players| ==> players[i].Valid()
    modifies players`score, players`dead, players`deathAnimationTicks, players`invulnerableTicks, fruits`collected
    ensures forall i :: 0 <= i < |players| ==>
      && players[i].Valid()
      && players[i].score == old(players[i].score) + Earned(old(PositionsOf(players)), old(Views(fruits)), i)
      && players[i].Status() == (if old(players[i].position) in HurtingCells(old(Views(fruits))) then Hit(old(players[i].Status())) else old(players[i].Status()))
    ensures forall j :: 0 <= j < |fruits| ==> fruits[j].collected == EndsCollected(old(PositionsOf(players)), old(ViewOf(fruits[j])))
  {
    ghost var cells := PositionsOf(players);
    ghost var views := Views(fruits);
    for i := 0 to |players|
      invariant forall k :: 0 <= k < |players| ==> players[k].Valid()
      invariant forall k :: 0 <= k < i ==>
        && players[k].score == old(players[k].score) + Earned(cells, views, k)
        && players[k].Status() == (if cells[k] in HurtingCells(views) then Hit(old(players[k].Status())) else old(players[k].Status()))
      invariant forall k :: i <= k < |players| ==> players[k].score == old(players[k].score) && players[k].Status() == old(players[k].Status())
      invariant forall j :: 0 <= j < |fruits| ==> fruits[j].collected == EndsCollected(cells[..i], views[j])
    {
      CheckOnePlayer(players[i], fruits, i, cells, views);
    }
    assert cells[..|players|] == cells;
  }

  /** The inner loop of CheckPlayerFruit, for player i. */
  method CheckOnePlayer<B>(p: Player, fruits: seq<Fruit<B>>, i: nat, ghost cells: seq<Position>, ghost views: seq<FruitView>)
    requires Distinct(fruits) && i < |cells| && |views| == |fruits|
    requires p.Valid() && p.position == cells[i]
    requires forall j :: 0 <= j < |fruits| ==> ViewOf(fruits[j]).(collected := false) == views[j].(collected := false)
    requires forall j :: 0 <= j < |fruits| ==> fruits[j].collected == EndsCollected(cells[..i], views[j])
    modifies p`score, p`dead, p`deathAnimationTicks, p`invulnerableTicks, fruits`collected
    ensures p.Valid()
    ensures p.score == old(p.score) + Earned(cells, views, i)
    ensures p.Status() == (if cells[i] in HurtingCells(views) then Hit(old(p.Status())) else old(p.Status()))
    ensures forall j :: 0 <= j < |fruits| ==> fruits[j].collected == EndsCollected(cells[..i + 1], views[j])
  {
    for j := 0 to |fruits|
      invariant p.Valid()
      invariant p.score == old(p.score) + Earned(cells, views[..j], i)
      invariant p.Status() == (if cells[i] in HurtingCells(views[..j]) then Hit(old(p.Status())) else old(p.Status()))
      invariant forall k :: 0 <= k < j ==> fruits[k].collected == EndsCollected(cells[..i + 1], views[k])
      invariant forall k :: j <= k < |fruits| ==> fruits[k].collected == EndsCollected(cells[..i], views[k])
    {
      assert views[..j + 1][..j] == views[..j];
      TouchStep(cells, views[j], i);
      ghost var before := p.Status();
      CheckPair(p, fruits[j]);
      HitIdempotent(old(p.Status()));
      assert p.Status() == (if cells[i] in HurtingCells(views[..j + 1]) then Hit(old(p.Status())) else old(p.Status())) by {
        if TouchOf(views[j].(collected := EndsCollected(cells[..i], views[j])), cells[i]) == Pricked {
          assert views[..j + 1] == views[..j] + [views[j]];
        }
      }
    }
    assert views[..|fruits|] == views;
  }

  /** One player meets one fruit. */
  method CheckPair<B>(p: Player, f: Fruit<B>)
    requires p.Valid()
    modifies p`score, p`dead, p`deathAnimationTicks, p`invulnerableTicks, f`collected
    ensures p.Valid()
    ensures var t := old(TouchOf(ViewOf(f), p.position));
      && p.score == old(p.score) + (if t == Collects then f.GetPoints() else 0)
      && p.Status() == (if t == Pricked then Hit(old(p.Status())) else old(p.Status()))
      && f.collected == (old(f.collected) || t == Collects)
  {
    if f.collected || f.frozen {
      return;
    }
    if f.kind == Cactus && f.hasSpikesDangerous {
      if SameCell(f.position, p.position) {
        p.OnHitByEnemy();
        return;
      }
    }
    if SameCell(p.position, f.position) {
      f.Collect();
      p.AddScore(f.GetPoints());
    }
  }

  /**
   * Player i meets a fruit in the state the players before it left: it collects it exactly
   * when it is the first player on a collectible fruit, and is pricked exactly when the
   * fruit is a cactus that hurts on its cell.
   */
  lemma TouchStep(cells: seq<Position>, v: FruitView, i: nat)
    requires i < |cells|
    ensures var now := v.(collected := EndsCollected(cells[..i], v));
      var t := TouchOf(now, cells[i]);
      && (t == Collects <==> Collectible(v) && FirstOnCell(cells, v.position) == Some(i))
      && (t == Pricked <==> Hurts(v) && cells[i] == v.position)
      && EndsCollected(cells[..i + 1], v) == (now.collected || t == Collects)
  {
    FirstOnCellPrefix(cells, v.position, i);
  }

  /** How the first player on a cell relates to the players before index i. */
  lemma FirstOnCellPrefix(cells: seq<Position>, q: Position, i: nat)
    requires i < |cells|
    ensures q in cells[..i] <==> FirstOnCell(cells, q).Some? && FirstOnCell(cells, q).value < i
    ensures q in cells[..i + 1] <==> q in cells[..i] || cells[i] == q
    ensures q in cells[..i + 1] && q !in cells[..i] <==> FirstOnCell(cells, q) == Some(i)
  {
    var r := FirstOnCell(cells, q);
    assert cells[..i + 1] == cells[..i] + [cells[i]];
    if q in cells[..i] {
      var k :| 0 <= k < i && cells[..i][k] == q;
      assert cells[k] == q;
    }
    if r.Some? && r.value < i {
      assert cells[..i][r.value] == q;
    }
  }

  /** The cells the enemies stand on. */
  function EnemyCells<B>(enemies: seq<Enemy<B>>): (r: seq<Position>)
    reads set i | 0 <= i < |enemies| :: enemies[i]
    ensures |r| == |enemies| && forall i :: 0 <= i < |enemies| ==> r[i] == enemies[i].position
  {
    seq(|enemies|, i requires 0 <= i < |enemies| reads enemies => enemies[i].position)
  }

  /** Player against enemies: a player sharing a cell with any enemy is hit. */
  method CheckPlayerEnemy<B>(players: seq<Player>, enemies: seq<Enemy<B>>)
    requires Distinct(players)
    requires forall i :: 0 <= i < |players| ==> players[i].Valid()
    modifies players`dead, players`deathAnimationTicks, players`invulnerableTicks
    ensures forall i :: 0 <= i < |players| ==>
      && players[i].Valid()
      && players[i].Status() == (if players[i].position in EnemyCells(enemies) then Hit(old(players[i].Status())) else old(players[i].Status()))
  {
    for i := 0 to |players|
      invariant forall k :: 0 <= k < |players| ==> players[k].Valid()
      invariant forall k :: 0 <= k < i ==>
        players[k].Status() == (if players[k].position in EnemyCells(enemies) then Hit(old(players[k].Status())) else old(players[k].Status()))
      invariant forall k :: i <= k < |players| ==> players[k].Status() == old(players[k].Status())
    {
      HitByEnemies(players[i], enemies);
    }
  }

  /** The inner loop of CheckPlayerEnemy: one hit per enemy on the player's cell. */
  method HitByEnemies<B>(p: Player, enemies: seq<Enemy<B>>)
    requires p.Valid()
    modifies p`dead, p`deathAnimationTicks, p`invulnerableTicks
    ensures p.Valid()
    ensures p.Status() == (if p.position in EnemyCells(enemies) then Hit(old(p.Status())) else old(p.Status()))
  {
    for j := 0 to |enemies|
      invariant p.Valid()
      invariant p.Status() == (if p.position in EnemyCells(enemies)[..j] then Hit(old(p.Status())) else old(p.Status()))
    {
      assert EnemyCells(enemies)[..j + 1] == EnemyCells(enemies)[..j] + [enemies[j].position];
      if SameCell(p.position, enemies[j].position) {
        p.OnHitByEnemy();
        HitIdempotent(old(p.Status()));
      }
    }
    assert EnemyCells(enemies)[..|enemies|] == EnemyCells(enemies);
  }

  /** The cells of the lit campfires. */
  function LitCells(campfires: seq<Campfire>): (r: seq<Position>)
    reads set i | 0 <= i < |campfires| :: campfires[i]
    ensures forall q :: q in r <==> exists i :: 0 <= i < |campfires| && campfires[i].isLit && campfires[i].position == q
    decreases |campfires|
  {
    if |campfires| == 0 then []
    else
      var last := campfires[|campfires| - 1];
      LitCells(campfires[..|campfires| - 1]) + (if last.isLit then [last.position] else [])
  }

  /** Player against campfires: a player on a lit campfire is hit. */
  method CheckPlayerCampfire(players: seq<Player>, campfires: seq<Campfire>)
    requires Distinct(players)
    requires forall i :: 0 <= i < |players| ==> players[i].Valid()
    modifies players`dead, players`deathAnimationTicks, players`invulnerableTicks
    ensures forall i :: 0 <= i < |players| ==>
      && players[i].Valid()
      && players[i].Status() == (if players[i].position in LitCells(campfires) then Hit(old(players[i].Status())) else old(players[i].Status()))
  {
    for i := 0 to |players|
      invariant forall k :: 0 <= k < |players| ==> players[k].Valid()
      invariant forall k :: 0 <= k < i ==>
        players[k].Status() == (if players[k].position in LitCells(campfires) then Hit(old(players[k].Status())) else old(players[k].Status()))
      invariant forall k :: i <= k < |players| ==> players[k].Status() == old(players[k].Status())
    {
      HitByCampfires(players[i], campfires);
    }
  }

  /** The inner loop of CheckPlayerCampfire: one hit per lit campfire on the player's cell. */
  method HitByCampfires(p: Player, campfires: seq<Campfire>)
    requires p.Valid()
    modifies p`dead, p`deathAnimationTicks, p`invulnerableTicks
    ensures p.Valid()
    ensures p.Status() == (if p.position in LitCells(campfires) then Hit(old(p.Status())) else old(p.Status()))
  {
    var pos := p.position;
    for j := 0 to |campfires|
      invariant p.Valid() && p.position == pos
      invariant p.Status() == (if pos in LitCells(campfires[..j]) then Hit(old(p.Status())) else old(p.Status()))
    {
      assert campfires[..j + 1][..j] == campfires[..j];
      var c := campfires[j];
      if c.isLit && SameCell(pos, c.position) {
        p.OnHitByEnemy();
        HitIdempotent(old(p.Status()));
      }
    }
    assert campfires[..|campfires|] == campfires;
  }
}
