/**
 * The movement primitives of an ant: headings in 45-degree steps, the
 * rotation and translation used both for moving and for sensing, the
 * interior test with its one-cell margin, and the per-step decision between
 * exploring, going straight and making a weighted turn.
 *
 * Everything here is a pure function of a heading and a position; the
 * class that holds an ant's state and mutates the lattice is in module Trail.
 */
module Motion {

  /** A lattice coordinate: x indexes the first axis of the pheromone array, y the second. */
  datatype Pos = Pos(x: int, y: int)

  /** The pheromone array is Size by Size. */
  const Size := 256

  /** Side argument of a rotation: 0 turns right (clockwise), any other value turns left. */
  const Right := 0
  const Left := 1

  /** The four diagonal headings a new ant starts with. */
  const Diagonals: seq<int> := [45, 135, 225, 315]

  /** Position increment for each heading, in degrees. */
  const DirMapping: map<int, (int, int)> :=
    map[0 := (1, 0), 45 := (1, 1), 90 := (0, 1), 135 := (-1, 1),
        180 := (-1, 0), 225 := (-1, -1), 270 := (0, -1), 315 := (1, -1)]

  /** The eight headings, in degrees: the keys of the increment table (DirMappingShape). */
  const Headings: set<int> := {0, 45, 90, 135, 180, 225, 270, 315}

  predicate IsHeading(d: int) {
    d in Headings
  }

  /** A heading is exactly a multiple of 45 in [0, 360). */
  lemma HeadingsAreMultiplesOf45(d: int)
    ensures IsHeading(d) <==> 0 <= d < 360 && d % 45 == 0
  {
  }

  /**
   * The increment table has one entry per heading, eight in all, and every
   * entry moves each coordinate by at most one without leaving both unchanged.
   */
  lemma DirMappingShape()
    ensures DirMapping.Keys == Headings
    ensures |DirMapping| == 8
    ensures forall d :: d in DirMapping ==>
              -1 <= DirMapping[d].0 <= 1 && -1 <= DirMapping[d].1 <= 1 && DirMapping[d] != (0, 0)
  {
  }

  /** No two headings share an increment. */
  lemma DirMappingInjective(d: int, e: int)
    requires d in DirMapping && e in DirMapping && d != e
    ensures DirMapping[d] != DirMapping[e]
  {
  }

  /**
   * Turns a heading by `turn` steps of 45 degrees, to the right (subtracting)
   * when `side` is Right and to the left (adding) otherwise, wrapping once.
   * The result is a heading congruent modulo 360 to the signed turn.
   */
  function Rotate(dir: int, side: int, turn: int): (r: int)
    requires IsHeading(dir) && 0 <= turn <= 4
    ensures IsHeading(r)
    ensures side == Right ==> (r + 45 * turn) % 360 == dir
    ensures side != Right ==> (dir + 45 * turn) % 360 == r
  {
    if side == Right then
      var d := dir - 45 * turn;
      if d < 0 then d + 360 else d
    else
      var d := dir + 45 * turn;
      if d >= 360 then d - 360 else d
  }

  /** Turning one way and then back the same number of steps restores the heading. */
  lemma RotateUndo(dir: int, side: int, turn: int)
    requires IsHeading(dir) && 0 <= turn <= 4 && (side == Right || side == Left)
    ensures Rotate(Rotate(dir, side, turn), Left - side, turn) == dir
  {
  }

  /** The unsigned angle between two headings, in [0, 180]. */
  function TurnDistance(a: int, b: int): (r: int)
    ensures 0 <= r <= 180
  {
    var t := (b - a) % 360;
    if t <= 180 then t else 360 - t
  }

  /** A rotation by `turn` steps changes the heading by exactly 45 * turn degrees, on either side. */
  lemma RotateDistance(dir: int, side: int, turn: int)
    requires IsHeading(dir) && 0 <= turn <= 4
    ensures TurnDistance(dir, Rotate(dir, side, turn)) == 45 * turn
  {
  }

  /** The cell one step along `dir` from `p`. */
  function Translate(p: Pos, dir: int): (r: Pos)
    requires dir in DirMapping
    ensures -1 <= r.x - p.x <= 1 && -1 <= r.y - p.y <= 1
    ensures r != p
    ensures (r.x - p.x, r.y - p.y) == DirMapping[dir]
  {
    var (dx, dy) := DirMapping[dir];
    Pos(p.x + dx, p.y + dy)
  }

  /** Stepping along a heading and then along its reverse (a 180-degree turn) returns to the start. */
  lemma TranslateBack(p: Pos, dir: int)
    requires IsHeading(dir)
    ensures Translate(Translate(p, dir), Rotate(dir, Left, 4)) == p
  {
  }

  /** Distinct headings lead to distinct neighbouring cells. */
  lemma TranslateInjective(p: Pos, d: int, e: int)
    requires IsHeading(d) && IsHeading(e) && d != e
    ensures Translate(p, d) != Translate(p, e)
  {
  }

  /** Whether a position lies in the 256-by-256 pheromone array. */
  predicate InGrid(p: Pos) {
    0 <= p.x < Size && 0 <= p.y < Size
  }

  /**
   * An ant outside the interior [1, 254] x [1, 254] is removed from the
   * lattice. Within the array, these are exactly the cells of its outermost ring.
   */
  function OutsideBounds(p: Pos): (b: bool)
    ensures !b ==> InGrid(p)
    ensures InGrid(p) ==> (b <==> p.x == 0 || p.x == Size - 1 || p.y == 0 || p.y == Size - 1)
  {
    p.x > 254 || p.x < 1 || p.y > 254 || p.y < 1
  }

  /** One step in any direction from an interior cell stays inside the array. */
  lemma InteriorStepInGrid(p: Pos, dir: int)
    requires !OutsideBounds(p) && IsHeading(dir)
    ensures InGrid(Translate(p, dir))
  {
  }

  /**
   * The k-th sensed cell: k / 3 is the side (0 right, 1 left), k % 3 the
   * number of 45-degree steps; entries 0 and 3 both denote the cell ahead.
   */
  function SensedCell(p: Pos, dir: int, k: int): (c: Pos)
    requires IsHeading(dir) && 0 <= k < 6
    ensures c != p
    ensures !OutsideBounds(p) ==> InGrid(c)
  {
    Translate(p, Rotate(dir, k / 3, k % 3))
  }

  /**
   * Entries 0 and 3 of the sensed neighbourhood are the cell straight ahead;
   * the other four are pairwise distinct and differ from it.
   */
  lemma SensedCellsLayout(p: Pos, dir: int)
    requires IsHeading(dir)
    ensures SensedCell(p, dir, 0) == SensedCell(p, dir, 3) == Translate(p, dir)
    ensures forall i, j :: 0 <= i < j < 6 && j != 3 ==> SensedCell(p, dir, i) != SensedCell(p, dir, j)
  {
    forall i, j | 0 <= i < j < 6 && j != 3
      ensures SensedCell(p, dir, i) != SensedCell(p, dir, j)
    {
      var di, dj := Rotate(dir, i / 3, i % 3), Rotate(dir, j / 3, j % 3);
      RotateDistance(dir, i / 3, i % 3);
      RotateDistance(dir, j / 3, j % 3);
      assert di != dj;
      TranslateInjective(p, di, dj);
    }
  }

  /** Total of a sensed vector; never negative when no entry is. */
  function Sum(s: seq<int>): (r: int)
    ensures (forall i :: 0 <= i < |s| ==> s[i] >= 0) ==> r >= 0
  {
    if s == [] then 0
    else
      assert forall i :: 1 <= i < |s| ==> s[i] == s[1..][i - 1];
      s[0] + Sum(s[1..])
  }

  /** A sum of non-negative concentrations is zero exactly when every concentration is zero. */
  lemma {:induction false} SumZeroIffAllZero(s: seq<int>)
    requires forall i :: 0 <= i < |s| ==> s[i] >= 0
    ensures Sum(s) >= 0
    ensures Sum(s) == 0 <==> forall i :: 0 <= i < |s| ==> s[i] == 0
  {
    if s != [] {
      SumZeroIffAllZero(s[1..]);
      assert forall i :: 1 <= i < |s| ==> s[i] == s[1..][i - 1];
    }
  }

  /** What an ant does in one step once it is known to be in the interior. */
  datatype Choice =
    | Explore          // turn by the exploration kernel and step; the ant becomes lost
    | Ahead            // keep the heading and step
    | Turn(pick: nat)  // weighted turn: indices 0-2 turn right, 3-5 turn left, by (pick % 3) * 45 degrees

  /**
   * The decision procedure of one step, given the sensed vector `s`, the
   * outcome of the fidelity draw, and the index drawn for a weighted turn.
   */
  function Decide(s: seq<int>, stays: bool, pick: nat): (c: Choice)
    requires |s| == 6
    ensures !c.Explore? ==> stays && Sum(s) != 0
    ensures c.Ahead? ==> s[0] > 0
    ensures c.Turn? ==> c.pick == pick && s[0] <= 0 && (s[1] != s[4] || s[2] != s[5])
    ensures c == Turn(pick) <==> Sum(s) != 0 && stays && s[0] <= 0 && (s[1] != s[4] || s[2] != s[5])
    ensures c == Explore <==> Sum(s) == 0 || !stays || (s[0] <= 0 && s[1] == s[4] && s[2] == s[5])
  {
    if Sum(s) == 0 then Explore
    else if !stays then Explore
    else if s[0] > 0 then Ahead
    else if s[1] == s[4] && s[2] == s[5] then Explore
    else Turn(pick)
  }

  /** The heading after carrying out choice `c`; `turn` and `side` are the exploration draws. */
  function NewHeading(dir: int, c: Choice, turn: int, side: int): (r: int)
    requires IsHeading(dir) && 0 <= turn <= 4
    requires c.Turn? ==> c.pick < 6
    ensures IsHeading(r)
  {
    match c
    case Explore => Rotate(dir, side, turn)
    case Ahead => dir
    case Turn(pick) => if pick < 3 then Rotate(dir, Right, pick) else Rotate(dir, Left, pick - 3)
  }

  /**
   * The unnormalised weights of the six sensed entries for a weighted turn:
   * each concentration multiplied by the kernel's 45-degree or 90-degree
   * probability, and the two straight-ahead entries by zero.
   */
  function TurnWeights(probs: seq<real>, s: seq<int>): (w: seq<real>)
    requires |probs| >= 3 && |s| == 6
    ensures |w| == 6 && w[0] == 0.0 && w[3] == 0.0
  {
    [0.0 * s[0] as real, probs[1] * s[1] as real, probs[2] * s[2] as real,
     0.0 * s[3] as real, probs[1] * s[4] as real, probs[2] * s[5] as real]
  }

  /**
   * Whether `pick` can be drawn from the weights `w` once they are divided by
   * their sum: all weights share a sign (the draw rejects a mixed-sign
   * vector) and the weight of `pick` is non-zero, so its normalised
   * probability is positive.
   */
  predicate DrawableTurn(w: seq<real>, pick: nat)
    requires |w| == 6 && pick < 6
  {
    || ((forall i :: 0 <= i < 6 ==> w[i] >= 0.0) && w[pick] > 0.0)
    || ((forall i :: 0 <= i < 6 ==> w[i] <= 0.0) && w[pick] < 0.0)
  }

  /**
   * An index drawn with non-zero weight is never a straight-ahead entry, so a
   * weighted turn changes the heading by exactly 45 or 90 degrees.
   */
  lemma WeightedTurnIsSharp(probs: seq<real>, s: seq<int>, dir: int, pick: nat)
    requires |probs| >= 3 && |s| == 6 && pick < 6 && IsHeading(dir)
    requires TurnWeights(probs, s)[pick] != 0.0
    ensures pick != 0 && pick != 3
    ensures TurnDistance(dir, NewHeading(dir, Turn(pick), 0, Right)) in {45, 90}
  {
  }

  /**
   * On a non-negative field with positive 45- and 90-degree kernel entries,
   * an asymmetric fork always has some entry of positive weight, so the
   * normalisation of the weights never divides by zero.
   */
  lemma ForkHasPositiveWeight(probs: seq<real>, s: seq<int>)
    requires |probs| >= 3 && probs[1] > 0.0 && probs[2] > 0.0 && |s| == 6
    requires forall i :: 0 <= i < 6 ==> s[i] >= 0
    requires s[1] != s[4] || s[2] != s[5]
    ensures exists pick :: 0 <= pick < 6 && TurnWeights(probs, s)[pick] > 0.0
  {
    var w := TurnWeights(probs, s);
    var k := if s[1] > 0 then 1 else if s[4] > 0 then 4 else if s[2] > 0 then 2 else 5;
    assert s[k] > 0;
    assert (s[k] as real) > 0.0;
    assert w[k] == probs[k % 3] * s[k] as real;
    assert w[k] > 0.0;
  }

  /**
   * A field that is nowhere positive (the case of a negative deposition rate
   * or saturation) still yields a drawable weighted turn at an asymmetric
   * fork when the 45- and 90-degree kernel entries are positive: the weights
   * are all non-positive and one of them is negative.
   */
  lemma NonPositiveForkIsDrawable(probs: seq<real>, s: seq<int>)
    requires |probs| >= 3 && probs[1] > 0.0 && probs[2] > 0.0 && |s| == 6
    requires forall i :: 0 <= i < 6 ==> s[i] <= 0
    requires s[1] != s[4] || s[2] != s[5]
    ensures exists pick: nat :: pick < 6 && DrawableTurn(TurnWeights(probs, s), pick)
  {
    var w := TurnWeights(probs, s);
    var k: nat := if s[1] < 0 then 1 else if s[4] < 0 then 4 else if s[2] < 0 then 2 else 5;
    assert s[k] < 0;
    assert (s[k] as real) < 0.0;
    assert w[k] == probs[k % 3] * s[k] as real;
    assert w[k] < 0.0;
    forall i | 0 <= i < 6 ensures w[i] <= 0.0 {
      assert (s[i] as real) <= 0.0;
    }
    assert DrawableTurn(w, k);
  }

  /**
   * The ant keeps its heading exactly when it goes straight ahead, which
   * happens exactly when something is sensed, the fidelity draw succeeds and
   * the cell ahead carries pheromone.
   */
  lemma AheadIffTrailInFront(s: seq<int>, stays: bool, pick: nat)
    requires |s| == 6 && forall i :: 0 <= i < 6 ==> s[i] >= 0
    ensures Decide(s, stays, pick) == Ahead <==> stays && s[0] > 0
  {
    if s[0] > 0 {
      SumZeroIffAllZero(s);
    }
  }
}
