/**
 * The lattice and its ants: the shared pheromone array that every ant reads
 * and writes, the list of live ants, and the per-step move of one ant.
 *
 * An ant keeps a reference to the lattice it lives on, and the lattice keeps
 * the list of its ants, so both classes live in this one module.
 */
module Trail {
  import opened Motion
  import opened Field
  import opened Lists

  /** The six concentrations an ant at `p` with heading `dir` senses, in the order of SensedCell. */
  ghost function Surround(g: array2<int>, p: Pos, dir: int): (s: seq<int>)
    reads g
    requires g.Length0 == Size && g.Length1 == Size && !OutsideBounds(p) && IsHeading(dir)
    ensures |s| == 6 && s[0] == s[3]
    ensures forall k :: 0 <= k < 6 ==> s[k] == g[SensedCell(p, dir, k).x, SensedCell(p, dir, k).y]
  {
    seq(6, k requires 0 <= k < 6 reads g => g[SensedCell(p, dir, k).x, SensedCell(p, dir, k).y])
  }

  /** Number of ants in `s` whose `lost` flag is set. */
  function LostCount(s: seq<Ant>): (c: nat)
    reads s
    ensures c <= |s|
  {
    if s == [] then 0 else (if s[0].lost then 1 else 0) + LostCount(s[1..])
  }

  /** The lost count is zero exactly when every ant in `s` is following a trail. */
  lemma {:induction false} NoneLostIffAllFollow(s: seq<Ant>)
    ensures LostCount(s) == 0 <==> forall i :: 0 <= i < |s| ==> !s[i].lost
  {
    if s != [] {
      NoneLostIffAllFollow(s[1..]);
      assert forall i :: 1 <= i < |s| ==> s[i] == s[1..][i - 1];
    }
  }

  /** Appending an ant adds one to the count exactly when that ant is lost. */
  lemma {:induction false} LostCountAppend(s: seq<Ant>, a: Ant)
    ensures LostCount(s + [a]) == LostCount(s) + (if a.lost then 1 else 0)
  {
    if s != [] {
      assert (s + [a])[1..] == s[1..] + [a];
      LostCountAppend(s[1..], a);
    }
  }

  class Lattice {
    /** Pheromone concentration of every cell, indexed [x, y]. */
    const grid: array2<int>
    /** The live ants, in the order they were added. */
    var ants: seq<Ant>
    /** Amount added by one deposit. */
    const dep: int
    /** Concentration at which antennae saturate; no deposit goes above it. */
    const sat: int
    /** Probability that an ant keeps following a trail it senses. */
    const fidelity: real
    /** Turning kernel: probabilities of turning by 0, 45, 90, 135 and 180 degrees. */
    const probs: seq<real>

    /**
     * The array is 256 by 256, the kernel has five entries, no ant is live
     * twice, and every live ant belongs to this lattice, shares its fidelity
     * and kernel, has one of the eight headings and stands inside the array.
     */
    ghost predicate Valid()
      reads this, ants
    {
      && grid.Length0 == Size && grid.Length1 == Size
      && |probs| == 5
      && Distinct(ants)
      && forall a :: a in ants ==>
           && a.lattice == this && a.fidelity == fidelity && a.probs == probs
           && IsHeading(a.dir) && InGrid(a.pos)
    }

    /** Every concentration lies in [0, sat]. */
    ghost predicate Bounded()
      reads this, grid
    {
      forall i, j :: 0 <= i < grid.Length0 && 0 <= j < grid.Length1 ==> 0 <= grid[i, j] <= sat
    }

    /** An empty lattice: all concentrations zero and no ants. */
    constructor (depositionRate: int, saturation: int, fidelity: real, probs: seq<real>)
      requires |probs| == 5
      ensures Valid() && fresh(grid) && ants == []
      ensures dep == depositionRate && sat == saturation
      ensures this.fidelity == fidelity && this.probs == probs
      ensures forall i, j :: 0 <= i < Size && 0 <= j < Size ==> grid[i, j] == 0
      ensures 0 <= saturation ==> Bounded()
    {
      grid := new int[Size, Size]((i, j) => 0);
      ants := [];
      dep := depositionRate;
      sat := saturation;
      this.fidelity := fidelity;
      this.probs := probs;
    }

    /** Adds `dep` to the cell at `p`, capped at `sat`; no other cell changes. */
    method Deposit(p: Pos)
      requires Valid() && InGrid(p)
      modifies grid
      ensures grid[p.x, p.y] == Deposited(old(grid[p.x, p.y]), dep, sat)
      ensures forall i, j :: 0 <= i < Size && 0 <= j < Size && (i, j) != (p.x, p.y) ==>
                grid[i, j] == old(grid[i, j])
      ensures old(Bounded()) && 0 <= dep ==> Bounded()
    {
      grid[p.x, p.y] := Deposited(grid[p.x, p.y], dep, sat);
    }

    /** Lowers every positive cell by one; cells at or below zero are left alone. */
    method Evap()
      requires Valid()
      modifies grid
      ensures forall i, j :: 0 <= i < Size && 0 <= j < Size ==> grid[i, j] == Evaporated(old(grid[i, j]))
      ensures old(Bounded()) ==> Bounded()
    {
      for x := 0 to Size
        invariant forall i, j :: 0 <= i < x && 0 <= j < Size ==> grid[i, j] == Evaporated(old(grid[i, j]))
        invariant forall i, j :: x <= i < Size && 0 <= j < Size ==> grid[i, j] == old(grid[i, j])
      {
        for y := 0 to Size
          invariant forall i, j :: 0 <= i < x && 0 <= j < Size ==> grid[i, j] == Evaporated(old(grid[i, j]))
          invariant forall j :: 0 <= j < y ==> grid[x, j] == Evaporated(old(grid[x, j]))
          invariant forall j :: y <= j < Size ==> grid[x, j] == old(grid[x, j])
          invariant forall i, j :: x < i < Size && 0 <= j < Size ==> grid[i, j] == old(grid[i, j])
        {
          if grid[x, y] > 0 {
            grid[x, y] := grid[x, y] - 1;
          }
        }
      }
    }

    /**
     * Appends a new, lost ant at the centre (127, 127) with the diagonal
     * heading drawn as `diagonal`; the ants already live keep their order.
     */
    method AddAnt(id: int, diagonal: nat)
      requires Valid() && diagonal < 4
      modifies this
      ensures Valid()
      ensures |ants| == |old(ants)| + 1 && ants[..|old(ants)|] == old(ants)
      ensures fresh(ants[|ants| - 1])
      ensures ants[|ants| - 1].id == id && ants[|ants| - 1].pos == Pos(127, 127)
      ensures ants[|ants| - 1].dir == Diagonals[diagonal] && ants[|ants| - 1].lost
      ensures LostCount(ants) == old(LostCount(ants)) + 1
    {
      var a := new Ant(this, id, Pos(127, 127), diagonal);
      LostCountAppend(ants, a);
      ants := ants + [a];
      assert ants[..|old(ants)|] == old(ants);
    }

    /**
     * Removes `a` from the live ants, keeping the others in order. `removed`
     * is false when `a` was not live, the case in which removal from the list
     * fails; the list is then unchanged.
     */
    method Kill(a: Ant) returns (removed: bool)
      requires Valid()
      modifies this
      ensures Valid()
      ensures removed == (a in old(ants))
      ensures ants == Without(old(ants), a)
      ensures a !in ants
      ensures forall b :: b in ants <==> b in old(ants) && b != a
    {
      removed := a in ants;
      WithoutDistinct(ants, a);
      ants := Without(ants, a);
    }

    /**
     * Ratio of trail-following ants to lost ants; with no lost ant, the
     * number of following ants (which is then every live ant).
     */
    function CalculateStrength(): (r: real)
      reads this, ants
      ensures LostCount(ants) == 0 ==> r == |ants| as real
      ensures LostCount(ants) > 0 ==> r * LostCount(ants) as real == (|ants| - LostCount(ants)) as real
      ensures 0.0 <= r
    {
      var nLost := LostCount(ants);
      var nFollowing := |ants| - nLost;
      if nLost == 0 then nFollowing as real else nFollowing as real / nLost as real
    }
  }

  class Ant {
    const id: int
    /** Current cell. */
    var pos: Pos
    /** The lattice this ant moves on. */
    const lattice: Lattice
    const fidelity: real
    const probs: seq<real>
    /** Heading in degrees. */
    var dir: int
    /** Whether the last step was an exploration step rather than trail following. */
    var lost: bool

    /** A new ant is lost and faces the diagonal drawn as `diagonal`. */
    constructor (lattice: Lattice, id: int, pos: Pos, diagonal: nat)
      requires diagonal < 4
      ensures this.lattice == lattice && this.id == id && this.pos == pos
      ensures fidelity == lattice.fidelity && probs == lattice.probs
      ensures dir == Diagonals[diagonal] && dir in {45, 135, 225, 315} && lost
    {
      this.id := id;
      this.pos := pos;
      this.lattice := lattice;
      fidelity := lattice.fidelity;
      probs := lattice.probs;
      dir := Diagonals[diagonal];
      lost := true;
    }

    /**
     * The fidelity check, given the uniform draw in [0, 1): with fidelity 0
     * the ant always loses the trail, with fidelity 1 it never does.
     */
    function Stay(draw: real): (r: bool)
      ensures fidelity <= 0.0 && 0.0 <= draw ==> !r
      ensures 1.0 <= fidelity && draw < 1.0 ==> r
    {
      draw < fidelity
    }

    /** With fidelity 0, whatever the ant senses and draws, it explores. */
    lemma ZeroFidelityAlwaysExplores(sensed: seq<int>, stayDraw: real, pick: nat)
      requires fidelity == 0.0 && 0.0 <= stayDraw < 1.0 && |sensed| == 6
      ensures Decide(sensed, Stay(stayDraw), pick).Explore?
    {
    }

    /**
     * Marks the ant lost, turns it by `turn` steps on `side` (the two
     * exploration draws) and returns the cell ahead on the new heading,
     * without moving the ant there or checking bounds.
     */
    method Explore(turn: int, side: int) returns (next: Pos)
      requires IsHeading(dir) && 0 <= turn <= 4
      modifies this`lost, this`dir
      ensures lost && dir == Rotate(old(dir), side, turn)
      ensures next == Translate(pos, dir)
      ensures TurnDistance(old(dir), dir) == 45 * turn
    {
      lost := true;
      dir := Rotate(dir, side, turn);
      RotateDistance(old(dir), side, turn);
      next := Translate(pos, dir);
    }

    /** Reads the six sensed concentrations: right 0, 45, 90 degrees, then left 0, 45, 90 degrees. */
    method Sense() returns (s: seq<int>)
      requires lattice.grid.Length0 == Size && lattice.grid.Length1 == Size
      requires !OutsideBounds(pos) && IsHeading(dir)
      ensures s == Surround(lattice.grid, pos, dir)
    {
      s := [];
      for side := 0 to 2
        invariant |s| == 3 * side
        invariant forall k :: 0 <= k < |s| ==>
                    s[k] == lattice.grid[SensedCell(pos, dir, k).x, SensedCell(pos, dir, k).y]
      {
        for turn := 0 to 3
          invariant |s| == 3 * side + turn
          invariant forall k :: 0 <= k < |s| ==>
                      s[k] == lattice.grid[SensedCell(pos, dir, k).x, SensedCell(pos, dir, k).y]
        {
          var nextDir := Rotate(dir, side, turn);
          var next := Translate(pos, nextDir);
          assert next == SensedCell(pos, dir, 3 * side + turn);
          s := s + [lattice.grid[next.x, next.y]];
        }
      }
    }

    /**
     * One step of a live ant. The draws are parameters: `stayDraw` is the
     * uniform draw of the fidelity check, `kernelTurn` and `side` the
     * exploration draws, and `pick` the index drawn for a weighted turn,
     * which the normalised weights can yield (DrawableTurn) whenever the
     * weighted turn is reached.
     *
     * The ant first deposits at its cell. Outside the interior it is removed
     * and stays where it is. Otherwise it takes the choice Decide makes from
     * what it senses, is lost exactly when that choice is to explore, and
     * steps once along its new heading; when it follows the trail its heading
     * is kept or turned by 45 or 90 degrees.
     */
    method Move(stayDraw: real, kernelTurn: int, side: int, pick: nat)
      requires lattice.Valid() && this in lattice.ants
      requires 0.0 <= stayDraw < 1.0 && 0 <= kernelTurn <= 4 && (side == Right || side == Left) && pick < 6
      requires !OutsideBounds(pos) && Decide(Surround(lattice.grid, pos, dir), Stay(stayDraw), pick).Turn? ==>
                 DrawableTurn(TurnWeights(probs, Surround(lattice.grid, pos, dir)), pick)
      modifies this, lattice, lattice.grid
      ensures lattice.Valid()
      ensures old(lattice.Bounded()) && 0 <= lattice.dep ==> lattice.Bounded()
      ensures lattice.grid[old(pos).x, old(pos).y] ==
                Deposited(old(lattice.grid[pos.x, pos.y]), lattice.dep, lattice.sat)
      ensures forall i, j :: 0 <= i < Size && 0 <= j < Size && (i, j) != (old(pos).x, old(pos).y) ==>
                lattice.grid[i, j] == old(lattice.grid[i, j])
      ensures OutsideBounds(old(pos)) ==>
                && lattice.ants == Without(old(lattice.ants), this) && this !in lattice.ants
                && pos == old(pos) && dir == old(dir) && !lost
      ensures !OutsideBounds(old(pos)) ==>
                var c := Decide(old(Surround(lattice.grid, pos, dir)), Stay(stayDraw), pick);
                && lattice.ants == old(lattice.ants)
                && lost == c.Explore?
                && dir == NewHeading(old(dir), c, kernelTurn, side)
                && pos == Translate(old(pos), dir)
      ensures !OutsideBounds(old(pos)) && !lost ==> dir == old(dir) || TurnDistance(old(dir), dir) in {45, 90}
    {
      lost := false;
      lattice.Deposit(pos);
      if OutsideBounds(pos) {
        var removed := lattice.Kill(this);
      } else {
        ghost var before := old(Surround(lattice.grid, pos, dir));
        var s := Sense();
        assert s == before by {
          forall k | 0 <= k < 6 ensures s[k] == before[k] {
            assert SensedCell(pos, dir, k) != pos;
          }
        }
        Advance(s, stayDraw, kernelTurn, side, pick);
        assert lattice.Valid() by {
          forall a | a in lattice.ants
            ensures a.lattice == lattice && a.fidelity == lattice.fidelity && a.probs == lattice.probs
            ensures IsHeading(a.dir) && InGrid(a.pos)
          {
            if a != this {
              assert old(a.dir) == a.dir && old(a.pos) == a.pos;
            }
          }
        }
      }
    }

    /**
     * The rest of a step once the ant has deposited and is inside the
     * interior, where it senses `s`: explore when nothing is sensed or the
     * fidelity check fails, go straight when the cell ahead carries
     * pheromone, explore at a symmetric fork, and otherwise turn by the
     * drawn weighted index and step.
     */
    method Advance(sensed: seq<int>, stayDraw: real, kernelTurn: int, side: int, pick: nat)
      requires lattice.grid.Length0 == Size && lattice.grid.Length1 == Size
      requires !OutsideBounds(pos) && IsHeading(dir) && |probs| >= 3 && !lost
      requires sensed == Surround(lattice.grid, pos, dir)
      requires 0 <= kernelTurn <= 4 && pick < 6
      requires Decide(sensed, Stay(stayDraw), pick).Turn? ==> DrawableTurn(TurnWeights(probs, sensed), pick)
      modifies this`pos, this`dir, this`lost
      ensures var c := Decide(sensed, Stay(stayDraw), pick);
              && lost == c.Explore?
              && dir == NewHeading(old(dir), c, kernelTurn, side)
              && pos == Translate(old(pos), dir)
      ensures !lost ==> dir == old(dir) || TurnDistance(old(dir), dir) in {45, 90}
      ensures InGrid(pos)
    {
      if Sum(sensed) == 0 {
        pos := Explore(kernelTurn, side);
      } else if !Stay(stayDraw) {
        pos := Explore(kernelTurn, side);
      } else {
        var surround := Sense();
        if surround[0] > 0 {
          pos := Translate(pos, dir);
        } else if surround[1] == surround[4] && surround[2] == surround[5] {
          pos := Explore(kernelTurn, side);
        } else {
          WeightedTurnIsSharp(probs, surround, dir, pick);
          if pick < 3 {
            dir := Rotate(dir, Right, pick);
          } else {
            dir := Rotate(dir, Left, pick - 3);
          }
          pos := Translate(pos, dir);
        }
      }
      InteriorStepInGrid(old(pos), dir);
    }
  }
}
