/**
 * The grid engine of the game screen: a Sokoban-style playfield of integer
 * cells, the legality rule for a step or a block push, the rewrite of the
 * cells on an accepted move, the goal check and the one-second timer.
 *
 * The playfield is a sequence of rows that may differ in length; every
 * lookup checks the row and then the column, as `field[y] && field[y][x]`
 * does in the screen's handlers.
 */
module Game {
  import opened Wrappers
  import TimeFormat

  /** Cell codes of the level data. Any other code behaves like a wall. */
  const EMPTY: int := 0
  const WALL: int := 1
  const PLAYER: int := 2
  const BLOCK: int := 3
  const GOAL: int := 4

  type Grid = seq<seq<int>>

  /** A cell coordinate: x is the column, y the row, both from zero. */
  datatype Pos = Pos(x: int, y: int)

  /** The level requested from the level supplier: 'easy' is level 1, anything else (also no parameter) level 2. */
  function Level(difficulty: Option<string>): (level: int)
    ensures level == 1 || level == 2
    ensures level == 1 <==> difficulty == Some("easy")
  {
    if difficulty == Some("easy") then 1 else 2
  }

  // ---------------------------------------------------------------------
  // Grid queries and writes
  // ---------------------------------------------------------------------

  predicate InGrid(g: Grid, p: Pos) {
    0 <= p.y < |g| && 0 <= p.x < |g[p.y]|
  }

  /** The code at p, or None where JavaScript reads `undefined` (row or column out of range). */
  function At(g: Grid, p: Pos): Option<int> {
    if InGrid(g, p) then Some(g[p.y][p.x]) else None
  }

  /**
   * The assignment `updatedField[y][x] = v` on a copy of the grid. Inside a
   * row it replaces the cell; at index `length` JavaScript appends to the
   * row. The remaining cases (a missing row, a negative or larger column)
   * never arise for the positions the engine writes, and leave the cells as
   * they were.
   */
  function Write(g: Grid, p: Pos, v: int): Grid {
    if 0 <= p.y < |g| && 0 <= p.x <= |g[p.y]| then
      g[p.y := if p.x < |g[p.y]| then g[p.y][p.x := v] else g[p.y] + [v]]
    else
      g
  }

  /** What a write does to each cell that was already there. */
  lemma WriteAt(g: Grid, p: Pos, v: int, q: Pos)
    requires InGrid(g, q)
    ensures InGrid(Write(g, p, v), q)
    ensures At(Write(g, p, v), q) == if q == p then Some(v) else At(g, q)
  {
  }

  /** A write inside the grid keeps the length of every row. */
  lemma WriteShape(g: Grid, p: Pos, v: int)
    requires InGrid(g, p)
    ensures |Write(g, p, v)| == |g|
    ensures forall y :: 0 <= y < |g| ==> |Write(g, p, v)[y]| == |g[y]|
  {
  }

  // ---------------------------------------------------------------------
  // Directions and the legality rule
  // ---------------------------------------------------------------------

  predicate IsArrow(key: string) {
    key == "ArrowUp" || key == "ArrowDown" || key == "ArrowLeft" || key == "ArrowRight"
  }

  /** The unit step of a key, as (dx, dy); every other key does not move. */
  function Delta(key: string): Pos {
    if key == "ArrowUp" then Pos(0, -1)
    else if key == "ArrowDown" then Pos(0, 1)
    else if key == "ArrowLeft" then Pos(-1, 0)
    else if key == "ArrowRight" then Pos(1, 0)
    else Pos(0, 0)
  }

  /** The cell the player steps into. */
  function Target(p: Pos, key: string): Pos {
    Pos(p.x + Delta(key).x, p.y + Delta(key).y)
  }

  /** The cell a pushed block moves into, two steps away. */
  function Beyond(p: Pos, key: string): Pos {
    Pos(p.x + 2 * Delta(key).x, p.y + 2 * Delta(key).y)
  }

  /**
   * The screen's `canMove`: a step into an empty or goal cell, or into a
   * block whose far side is an empty cell.
   */
  function CanMove(g: Grid, target: Pos, beyond: Pos): (ok: bool)
    ensures !InGrid(g, target) ==> !ok
    ensures At(g, target) == Some(EMPTY) || At(g, target) == Some(GOAL) ==> ok
    ensures At(g, target) == Some(BLOCK) ==> (ok <==> At(g, beyond) == Some(EMPTY))
    ensures ok ==> At(g, target) in {Some(EMPTY), Some(GOAL), Some(BLOCK)}
  {
    At(g, target) == Some(EMPTY) || At(g, target) == Some(GOAL)
    || (At(g, target) == Some(BLOCK) && At(g, beyond) == Some(EMPTY))
  }

  /** The kind of a move, decided in the order bounds, target code, far cell. */
  datatype MoveKind = Rejected | Plain | Push

  /** A reference classification of a move, written as a case analysis on the target cell. */
  function Classify(g: Grid, target: Pos, beyond: Pos): MoveKind {
    if !InGrid(g, target) then Rejected
    else
      match g[target.y][target.x]
      case 0 => Plain
      case 4 => Plain
      case 3 => if InGrid(g, beyond) && g[beyond.y][beyond.x] == EMPTY then Push else Rejected
      case _ => Rejected
  }

  /** canMove accepts exactly the plain moves and the pushes, and the block test in the update picks out the pushes. */
  lemma CanMoveClassify(g: Grid, target: Pos, beyond: Pos)
    ensures CanMove(g, target, beyond) <==> Classify(g, target, beyond) != Rejected
    ensures Classify(g, target, beyond) == Push <==> CanMove(g, target, beyond) && At(g, target) == Some(BLOCK)
  {
  }

  /** A block never lands on a wall, a block, a goal, an unknown code or outside the grid. */
  lemma PushNeedsEmpty(g: Grid, target: Pos, beyond: Pos)
    requires At(g, target) == Some(BLOCK)
    ensures !InGrid(g, beyond) ==> !CanMove(g, target, beyond)
    ensures At(g, beyond) == Some(EMPTY) ==> CanMove(g, target, beyond)
    ensures At(g, beyond) != Some(EMPTY) ==> !CanMove(g, target, beyond)
  {
  }

  /**
   * A key other than the four arrows aims at the player's own cell, which
   * holds the player code, so the move is rejected.
   */
  lemma OtherKeyRejected(g: Grid, p: Pos, key: string)
    requires !IsArrow(key)
    requires At(g, p) == Some(PLAYER)
    ensures Target(p, key) == p
    ensures !CanMove(g, Target(p, key), Beyond(p, key))
  {
  }

  // ---------------------------------------------------------------------
  // The update of an accepted move
  // ---------------------------------------------------------------------

  /**
   * The cells after an accepted move from src: the source becomes empty,
   * the target holds the player and, when the target held a block, the far
   * cell holds the block. The writes are made in this order on a copy.
   */
  function Step(g: Grid, src: Pos, target: Pos, beyond: Pos): Grid {
    var h := Write(Write(g, src, EMPTY), target, PLAYER);
    if At(g, target) == Some(BLOCK) then Write(h, beyond, BLOCK) else h
  }

  /**
   * Every cell after a move: the far cell of a push holds the block, the
   * target the player, the source is empty, every other cell is unchanged.
   */
  lemma StepAt(g: Grid, src: Pos, target: Pos, beyond: Pos, q: Pos)
    requires CanMove(g, target, beyond)
    requires InGrid(g, q)
    ensures InGrid(Step(g, src, target, beyond), q)
    ensures At(Step(g, src, target, beyond), q)
         == if q == beyond && At(g, target) == Some(BLOCK) then Some(BLOCK)
            else if q == target then Some(PLAYER)
            else if q == src then Some(EMPTY)
            else At(g, q)
  {
    var h1 := Write(g, src, EMPTY);
    WriteAt(g, src, EMPTY, q);
    WriteAt(h1, target, PLAYER, q);
    if At(g, target) == Some(BLOCK) {
      WriteAt(Write(h1, target, PLAYER), beyond, BLOCK, q);
    }
  }

  /** A move from a cell inside the grid changes no row's length. */
  lemma StepShape(g: Grid, src: Pos, target: Pos, beyond: Pos)
    requires CanMove(g, target, beyond)
    requires InGrid(g, src)
    ensures |Step(g, src, target, beyond)| == |g|
    ensures forall y :: 0 <= y < |g| ==> |Step(g, src, target, beyond)[y]| == |g[y]|
  {
    var h1 := Write(g, src, EMPTY);
    WriteShape(g, src, EMPTY);
    WriteAt(g, src, EMPTY, target);
    WriteShape(h1, target, PLAYER);
    if At(g, target) == Some(BLOCK) {
      var h2 := Write(h1, target, PLAYER);
      WriteAt(h1, target, PLAYER, beyond);
      WriteAt(g, src, EMPTY, beyond);
      WriteShape(h2, beyond, BLOCK);
    }
  }

  /** An accepted move writes no cell outside the grid: every cell is one that was there and vice versa. */
  lemma StepSameCells(g: Grid, src: Pos, target: Pos, beyond: Pos, q: Pos)
    requires CanMove(g, target, beyond)
    requires InGrid(g, src)
    ensures InGrid(Step(g, src, target, beyond), q) <==> InGrid(g, q)
  {
    StepShape(g, src, target, beyond);
  }

  // ---------------------------------------------------------------------
  // The player cell and the cell contents
  // ---------------------------------------------------------------------

  /** p holds the player code and no other cell does. */
  ghost predicate Sole(g: Grid, p: Pos) {
    At(g, p) == Some(PLAYER)
    && forall y, x :: 0 <= y < |g| && 0 <= x < |g[y]| && g[y][x] == PLAYER ==> x == p.x && y == p.y
  }

  /** When the player's cell is the only player cell, an accepted move leaves the target as the only player cell. */
  lemma StepKeepsSole(g: Grid, p: Pos, target: Pos, beyond: Pos)
    requires Sole(g, p)
    requires CanMove(g, target, beyond)
    ensures Sole(Step(g, p, target, beyond), target)
  {
    var h := Step(g, p, target, beyond);
    StepShape(g, p, target, beyond);
    StepAt(g, p, target, beyond, target);
    forall y, x | 0 <= y < |h| && 0 <= x < |h[y]| && h[y][x] == PLAYER
      ensures x == target.x && y == target.y
    {
      StepAt(g, p, target, beyond, Pos(x, y));
    }
  }

  /** The multiset of all cell codes. */
  function Cells(g: Grid): multiset<int> {
    if g == [] then multiset{} else multiset(g[0]) + Cells(g[1..])
  }

  lemma {:induction false} WriteCells(g: Grid, p: Pos, v: int)
    requires InGrid(g, p)
    ensures Cells(Write(g, p, v)) == Cells(g) - multiset{g[p.y][p.x]} + multiset{v}
    decreases |g|
  {
    var h := Write(g, p, v);
    if p.y == 0 {
      assert h[1..] == g[1..];
      assert g[0][p.x] in multiset(g[0]);
    } else {
      var p' := Pos(p.x, p.y - 1);
      assert h[1..] == Write(g[1..], p', v);
      WriteCells(g[1..], p', v);
      assert g[p.y][p.x] == g[1..][p'.y][p'.x];
      InCells(g[1..], p');
    }
  }

  lemma {:induction false} InCells(g: Grid, p: Pos)
    requires InGrid(g, p)
    ensures g[p.y][p.x] in Cells(g)
    decreases |g|
  {
    if p.y > 0 {
      InCells(g[1..], Pos(p.x, p.y - 1));
    }
  }

  /**
   * An accepted move from the player's cell keeps every code's count,
   * except that a step onto the goal turns one goal code into an empty
   * code. In particular no block and no player cell is created or lost.
   */
  lemma StepConservesCells(g: Grid, src: Pos, target: Pos, beyond: Pos)
    requires At(g, src) == Some(PLAYER)
    requires CanMove(g, target, beyond)
    ensures Cells(Step(g, src, target, beyond))
         == if At(g, target) == Some(GOAL) then Cells(g) - multiset{GOAL} + multiset{EMPTY} else Cells(g)
    ensures Cells(Step(g, src, target, beyond))[PLAYER] == Cells(g)[PLAYER]
    ensures Cells(Step(g, src, target, beyond))[BLOCK] == Cells(g)[BLOCK]
  {
    var t := g[target.y][target.x];
    var h2 := MoveCells(g, src, target);
    if t == BLOCK {
      WriteAt(g, src, EMPTY, beyond);
      WriteAt(Write(g, src, EMPTY), target, PLAYER, beyond);
      WriteCells(h2, beyond, BLOCK);
      PushCounts(Cells(g));
    } else {
      StepCounts(Cells(g), t);
    }
  }

  /** The first two writes of a move: the player code leaves src and replaces the target's code. */
  lemma MoveCells(g: Grid, src: Pos, target: Pos) returns (h: Grid)
    requires At(g, src) == Some(PLAYER)
    requires InGrid(g, target) && g[target.y][target.x] != PLAYER
    ensures h == Write(Write(g, src, EMPTY), target, PLAYER)
    ensures PLAYER in Cells(g) && g[target.y][target.x] in Cells(g)
    ensures Cells(h) == Cells(g) - multiset{PLAYER} + multiset{EMPTY} - multiset{g[target.y][target.x]} + multiset{PLAYER}
  {
    var h1 := Write(g, src, EMPTY);
    WriteCells(g, src, EMPTY);
    WriteAt(g, src, EMPTY, target);
    assert h1[target.y][target.x] == g[target.y][target.x];
    h := Write(h1, target, PLAYER);
    WriteCells(h1, target, PLAYER);
    InCells(g, src);
    InCells(g, target);
  }

  /** The code counts after a push: the player code and the block code each leave one cell and enter another. */
  lemma PushCounts(c: multiset<int>)
    requires PLAYER in c && BLOCK in c
    ensures c - multiset{PLAYER} + multiset{EMPTY} - multiset{BLOCK} + multiset{PLAYER} - multiset{EMPTY} + multiset{BLOCK} == c
  {
    var c1 := c - multiset{PLAYER} + multiset{EMPTY};
    var c2 := c1 - multiset{BLOCK} + multiset{PLAYER};
    assert c2 == c - multiset{BLOCK} + multiset{EMPTY};
  }

  /** The code counts after a plain step onto an empty or a goal cell. */
  lemma StepCounts(c: multiset<int>, t: int)
    requires PLAYER in c && t in c && (t == EMPTY || t == GOAL)
    ensures c - multiset{PLAYER} + multiset{EMPTY} - multiset{t} + multiset{PLAYER}
         == if t == GOAL then c - multiset{GOAL} + multiset{EMPTY} else c
  {
  }

  // ---------------------------------------------------------------------
  // Finding the start and the goal
  // ---------------------------------------------------------------------

  /** p is the first cell holding code in row-major order (rows top to bottom, each left to right). */
  predicate IsFirst(g: Grid, code: int, p: Pos) {
    At(g, p) == Some(code)
    && forall y, x :: 0 <= y < |g| && 0 <= x < |g[y]| && (y < p.y || (y == p.y && x < p.x)) ==> g[y][x] != code
  }

  predicate Absent(g: Grid, code: int) {
    forall y, x :: 0 <= y < |g| && 0 <= x < |g[y]| ==> g[y][x] != code
  }

  /** The row-major scan of both finders, returning at the first match. */
  method FindCell(g: Grid, code: int) returns (r: Option<Pos>)
    ensures r.None? <==> Absent(g, code)
    ensures r.Some? ==> IsFirst(g, code, r.value)
  {
    var y := 0;
    while y < |g|
      invariant 0 <= y <= |g|
      invariant forall j, i :: 0 <= j < y && 0 <= i < |g[j]| ==> g[j][i] != code
    {
      var x := 0;
      while x < |g[y]|
        invariant 0 <= x <= |g[y]|
        invariant forall i :: 0 <= i < x ==> g[y][i] != code
      {
        if g[y][x] == code {
          return Some(Pos(x, y));
        }
        x := x + 1;
      }
      y := y + 1;
    }
    return None;
  }

  /** The first player cell, or (0, 0) when the level has none. */
  method FindPlayerPosition(g: Grid) returns (p: Pos)
    ensures IsFirst(g, PLAYER, p) || (Absent(g, PLAYER) && p == Pos(0, 0))
  {
    var r := FindCell(g, PLAYER);
    p := if r.Some? then r.value else Pos(0, 0);
  }

  /** The first goal cell, or None when the level has none. */
  method FindFlagPosition(g: Grid) returns (r: Option<Pos>)
    ensures r.None? <==> Absent(g, GOAL)
    ensures r.Some? ==> IsFirst(g, GOAL, r.value)
  {
    r := FindCell(g, GOAL);
  }

  /** The first match is unique, so the scan's answer is determined by the grid. */
  lemma FirstIsUnique(g: Grid, code: int, p: Pos, q: Pos)
    requires IsFirst(g, code, p) && IsFirst(g, code, q)
    ensures p == q
  {
  }

  /** When the level has exactly one player cell, the scan finds it. */
  lemma FirstPlayerIsSole(g: Grid, p: Pos, s: Pos)
    requires IsFirst(g, PLAYER, p) || (Absent(g, PLAYER) && p == Pos(0, 0))
    requires Sole(g, s)
    ensures p == s && Sole(g, p)
  {
    assert g[s.y][s.x] == PLAYER;
  }

  // ---------------------------------------------------------------------
  // Rendering of one cell
  // ---------------------------------------------------------------------

  /** The text of a cell: 'P' for the player code, 'F' for the goal code, nothing otherwise. */
  function CellContent(cell: int): (s: string)
    ensures s == "P" <==> cell == PLAYER
    ensures s == "F" <==> cell == GOAL
    ensures s != "P" && s != "F" ==> s == ""
  {
    match cell
    case 0 => ""
    case 1 => ""
    case 2 => "P"
    case 3 => ""
    case 4 => "F"
    case _ => ""
  }

  /** The CSS class of the cell at row y, column x: 'player' at the player position whatever its code. */
  function CellClass(cell: int, playerPosition: Pos, y: int, x: int): (c: string)
    ensures c == "player" <==> playerPosition == Pos(x, y)
    ensures playerPosition != Pos(x, y) ==>
      && (c == "wall" <==> cell == WALL)
      && (c == "block" <==> cell == BLOCK)
      && (c == "flag" <==> cell == GOAL)
      && (c == "empty" <==> cell != WALL && cell != BLOCK && cell != GOAL)
  {
    if playerPosition.x == x && playerPosition.y == y then "player"
    else if cell == WALL then "wall"
    else if cell == BLOCK then "block"
    else if cell == GOAL then "flag"
    else "empty"
  }

  /** While the player cell is the only player cell, the 'player' class and the 'P' text mark the same cell. */
  lemma RenderAgrees(g: Grid, p: Pos, y: int, x: int)
    requires Sole(g, p)
    requires 0 <= y < |g| && 0 <= x < |g[y]|
    ensures CellClass(g[y][x], p, y, x) == "player" <==> CellContent(g[y][x]) == "P"
  {
  }

  // ---------------------------------------------------------------------
  // The engine
  // ---------------------------------------------------------------------

  /** What is posted to the result sink when the level is cleared. */
  datatype Report = Report(level: int, time: nat)

  /**
   * One game session. `field`, `player`, `flag` and `time` are the
   * screen's state; `running` says the one-second timer is set; `cleared`
   * stands for the stop of the timer and the move to the clear screen
   * when the goal is reached; `posted` is the report handed to the result
   * sink; `mounted` says the screen, and with it the key listener, is
   * still there.
   */
  class Engine {
    const level: int
    var field: Grid
    var player: Pos
    var flag: Option<Pos>
    var time: nat
    var running: bool
    var cleared: bool
    var posted: Option<Report>
    var mounted: bool

    /**
     * The session's phases: the report is posted exactly when the level is
     * cleared, and then the timer is off; once the screen is left the timer
     * is off too.
     */
    ghost predicate Valid()
      reads this
    {
      (cleared <==> posted.Some?) && (cleared ==> !running) && (!mounted ==> !running)
    }

    /**
     * Mounting the screen: the level for the difficulty is fetched from the
     * supplier (`fetched`, None when the request fails), the start and the
     * goal are found by scanning it, and the timer starts. A failed request
     * leaves the empty field and no timer.
     */
    constructor (difficulty: Option<string>, fetched: Option<Grid>)
      ensures Valid()
      ensures level == Level(difficulty)
      ensures time == 0 && !cleared && posted == None && mounted
      ensures fetched.None? ==> field == [] && player == Pos(0, 0) && flag == None && !running
      ensures fetched.Some? ==> field == fetched.value && running
      ensures fetched.Some? ==> IsFirst(field, PLAYER, player) || (Absent(field, PLAYER) && player == Pos(0, 0))
      ensures fetched.Some? ==> (flag.None? <==> Absent(field, GOAL))
      ensures fetched.Some? && flag.Some? ==> IsFirst(field, GOAL, flag.value)
    {
      var g: Grid := [];
      var p := Pos(0, 0);
      var f: Option<Pos> := None;
      var on := false;
      if fetched.Some? {
        g := fetched.value;
        p := FindPlayerPosition(g);
        f := FindFlagPosition(g);
        on := true;
      }
      level := Level(difficulty);
      field, player, flag := g, p, f;
      time, running, cleared, posted := 0, on, false, None;
      mounted := true;
    }

    /** One timer tick: one more second while the timer is set, nothing otherwise. */
    method Tick()
      modifies this`time
      ensures time == if running then old(time) + 1 else old(time)
    {
      if running {
        time := time + 1;
      }
    }

    /**
     * Leaving the screen: the effect cleanup clears the timer and the key
     * listener is removed, so later ticks and keys are no-ops.
     */
    method Leave()
      requires Valid()
      modifies this`running, this`mounted
      ensures Valid() && !running && !mounted
    {
      running := false;
      mounted := false;
    }

    /**
     * A key press. The target and the far cell are computed from the key;
     * when canMove accepts, the copy of the field is rewritten, the player
     * moves and, if the new position is the goal captured at load, the
     * timer stops and the current time is posted. Once cleared, or once
     * the screen is left, there is no listener and keys are ignored.
     */
    method Move(key: string)
      requires Valid()
      modifies this`field, this`player, this`running, this`cleared, this`posted
      ensures Valid()
      ensures var t := Target(old(player), key);
              var accepted := !old(cleared) && old(mounted) && CanMove(old(field), t, Beyond(old(player), key));
              var reached := accepted && flag == Some(t);
              && field == (if accepted then Step(old(field), old(player), t, Beyond(old(player), key)) else old(field))
              && player == (if accepted then t else old(player))
              && cleared == (old(cleared) || reached)
              && running == (old(running) && !reached)
              && posted == (if reached then Some(Report(level, time)) else old(posted))
      ensures old(Sole(field, player)) ==> Sole(field, player)
    {
      if cleared || !mounted {
        return;
      }
      var x, y := player.x, player.y;
      var newX, newY := x, y;
      var pushX, pushY := x, y;
      if key == "ArrowUp" {
        newY, pushY := newY - 1, pushY - 2;
      }
      if key == "ArrowDown" {
        newY, pushY := newY + 1, pushY + 2;
      }
      if key == "ArrowLeft" {
        newX, pushX := newX - 1, pushX - 2;
      }
      if key == "ArrowRight" {
        newX, pushX := newX + 1, pushX + 2;
      }
      var target, beyond := Pos(newX, newY), Pos(pushX, pushY);
      assert target == Target(player, key) && beyond == Beyond(player, key);
      if CanMove(field, target, beyond) {
        var updated := field;
        if At(field, target) == Some(BLOCK) {
          updated := Write(updated, Pos(x, y), EMPTY);
          updated := Write(updated, target, PLAYER);
          updated := Write(updated, beyond, BLOCK);
        } else {
          updated := Write(updated, Pos(x, y), EMPTY);
          updated := Write(updated, target, PLAYER);
        }
        if Sole(field, player) {
          StepKeepsSole(field, player, target, beyond);
        }
        field := updated;
        player := target;
        if flag.Some? && newX == flag.value.x && newY == flag.value.y {
          running := false;
          cleared := true;
          posted := Some(Report(level, time));
        }
      }
    }

    /** The timer text; it reads back as the elapsed seconds. */
    function Clock(): (s: string)
      reads this
      ensures TimeFormat.ParseTime(s) == Some(time)
    {
      TimeFormat.ParseFormatTime(time);
      TimeFormat.FormatTime(time)
    }
  }
}

/** Two small levels played through the engine's contracts and the move rules. */
module GameScenarios {
  import opened Wrappers
  import opened Game

  /** The 3 by 3 level's rules: where the scan starts, and the two accepted steps. */
  lemma CornerGrid(g: Grid, start: Pos, goal: Pos)
    requires g == [[1, 1, 1], [1, 2, 0], [1, 0, 4]]
    requires IsFirst(g, PLAYER, start) && IsFirst(g, GOAL, goal)
    ensures start == Pos(1, 1) && goal == Pos(2, 2)
    ensures CanMove(g, Pos(1, 2), Pos(1, 3))
    ensures Step(g, Pos(1, 1), Pos(1, 2), Pos(1, 3)) == [[1, 1, 1], [1, 0, 0], [1, 2, 4]]
    ensures CanMove([[1, 1, 1], [1, 0, 0], [1, 2, 4]], Pos(2, 2), Pos(3, 2))
  {
    assert g[1][1] == PLAYER && g[2][2] == GOAL;
    FirstIsUnique(g, PLAYER, start, Pos(1, 1));
    FirstIsUnique(g, GOAL, goal, Pos(2, 2));
    assert [1, 2, 0][1 := EMPTY] == [1, 0, 0];
    assert Write(g, Pos(1, 1), EMPTY) == [[1, 1, 1], [1, 0, 0], [1, 0, 4]];
    assert [1, 0, 4][1 := PLAYER] == [1, 2, 4];
    assert Write([[1, 1, 1], [1, 0, 0], [1, 0, 4]], Pos(1, 2), PLAYER) == [[1, 1, 1], [1, 0, 0], [1, 2, 4]];
  }

  /**
   * A walled 3 by 3 level with the player in the middle and the goal in the
   * bottom-right corner: Down then Right clears it on the second key, at
   * the goal's coordinate, with the time of that key posted.
   */
  method CornerLevel() returns (e: Engine)
    ensures e.cleared && !e.running
    ensures e.player == Pos(2, 2)
    ensures e.posted == Some(Report(2, 0))
  {
    var g: Grid := [[1, 1, 1], [1, 2, 0], [1, 0, 4]];
    e := new Engine(Some("normal"), Some(g));
    assert g[1][1] == PLAYER && g[2][2] == GOAL;
    assert !Absent(g, PLAYER) && e.flag.Some?;
    CornerGrid(g, e.player, e.flag.value);
    e.Move("ArrowDown");
    e.Move("ArrowRight");
  }

  /**
   * One row holding player, block, empty, wall: Right pushes the block one
   * cell and the player follows; a second Right is refused because the
   * wall stands behind the block.
   */
  lemma PushRowSteps()
    ensures CanMove([[2, 3, 0, 1]], Pos(1, 0), Pos(2, 0))
    ensures Step([[2, 3, 0, 1]], Pos(0, 0), Pos(1, 0), Pos(2, 0)) == [[0, 2, 3, 1]]
    ensures !CanMove([[0, 2, 3, 1]], Pos(2, 0), Pos(3, 0))
  {
    var g: Grid := [[2, 3, 0, 1]];
    assert [2, 3, 0, 1][0 := EMPTY] == [0, 3, 0, 1];
    assert Write(g, Pos(0, 0), EMPTY) == [[0, 3, 0, 1]];
    assert [0, 3, 0, 1][1 := PLAYER] == [0, 2, 0, 1];
    assert Write([[0, 3, 0, 1]], Pos(1, 0), PLAYER) == [[0, 2, 0, 1]];
    assert [0, 2, 0, 1][2 := BLOCK] == [0, 2, 3, 1];
    assert Write([[0, 2, 0, 1]], Pos(2, 0), BLOCK) == [[0, 2, 3, 1]];
  }
}
