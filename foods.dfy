/**
 * The food kinds of `SnakeSearchPoints.py`: nine subclasses `Food1` ..
 * `Food9` of `Food`, each fixing a shape, a colour and a point value.
 */
module SnakeFoods {
  import opened Grid

  /** An RGB colour as the pygame code writes it. */
  type Colour = (int, int, int)

  /** What a `FoodN` subclass fixes: `shape`, `color` and `point`. */
  datatype Kind = Kind(shape: string, color: Colour, point: int)

  /** A placed food: `Food(shape, color, position, point)`. */
  datatype Food = Food(shape: string, color: Colour, position: Cell, point: int)

  const Food1: Kind := Kind("Circle", (255, 0, 0), 9)
  const Food2: Kind := Kind("Circle", (0, 255, 0), -2)
  const Food3: Kind := Kind("Circle", (0, 0, 255), 5)
  const Food4: Kind := Kind("Triangle", (255, 0, 0), 7)
  const Food5: Kind := Kind("Triangle", (0, 255, 0), -6)
  const Food6: Kind := Kind("Triangle", (0, 0, 255), 3)
  const Food7: Kind := Kind("Square", (255, 0, 0), 1)
  const Food8: Kind := Kind("Square", (0, 255, 0), -4)
  const Food9: Kind := Kind("Square", (0, 0, 255), -8)

  /** The subclasses in order: `Kinds[n - 1]` is `FoodN`. */
  const Kinds: seq<Kind> := [Food1, Food2, Food3, Food4, Food5, Food6, Food7, Food8, Food9]

  /** `FoodN(position)`: the subclass constructor passes its fixed shape, colour and point value up. */
  function Place(k: Kind, position: Cell): (f: Food)
    ensures f.position == position && f.point == k.point
  {
    Food(k.shape, k.color, position, k.point)
  }

  /**
   * The nine kinds are the nine shape/colour combinations of three shapes
   * and three primary colours, each combination exactly once, and no kind
   * is worth nothing.
   */
  lemma KindsCombinations()
    ensures |Kinds| == 9
    ensures forall i, j :: 0 <= i < j < 9 ==> (Kinds[i].shape, Kinds[i].color) != (Kinds[j].shape, Kinds[j].color)
    ensures forall i :: 0 <= i < 9 ==>
              Kinds[i].shape in {"Circle", "Triangle", "Square"} &&
              Kinds[i].color in {(255, 0, 0), (0, 255, 0), (0, 0, 255)} &&
              Kinds[i].point != 0
  {
  }
}

/**
 * The scoring table of `Search.py`: `SHAPE_COLOR_POINTS` and the `Food`
 * class, whose `points` is the table's value for its shape and colour and
 * 0 for a pair the table does not list.
 */
module FoodPoints {
  import opened Grid

  type Colour = (int, int, int)

  /** `SHAPE_COLOR_POINTS`. */
  const ShapeColorPoints: map<(string, Colour), int> := map[
    ("circle", (255, 0, 0)) := -2,
    ("circle", (0, 255, 0)) := 1,
    ("circle", (0, 0, 255)) := -4,
    ("triangle", (255, 0, 0)) := 3,
    ("triangle", (0, 255, 0)) := -6,
    ("triangle", (0, 0, 255)) := 5,
    ("square", (255, 0, 0)) := -8,
    ("square", (0, 255, 0)) := 7,
    ("square", (0, 0, 255)) := 9
  ]

  /** `SHAPE_COLOR_POINTS.get((shape, color), 0)`. */
  function PointsOf(shape: string, color: Colour): int
  {
    if (shape, color) in ShapeColorPoints then ShapeColorPoints[(shape, color)] else 0
  }

  /** A placed food with its score. */
  datatype Food = Food(shape: string, color: Colour, position: Cell, points: int)

  /** `Food(shape, color, position)`. */
  function NewFood(shape: string, color: Colour, position: Cell): (f: Food)
    ensures f.shape == shape && f.color == color && f.position == position
  {
    Food(shape, color, position, PointsOf(shape, color))
  }

  /**
   * A food scores exactly when its shape and colour are listed, and then
   * scores a value no other listed pair has; the lower-case names are the
   * listed ones, so a `"Circle"` of the other game scores nothing here.
   */
  lemma PointsListed(shape: string, color: Colour)
    ensures NewFood(shape, color, (0, 0)).points != 0 <==> (shape, color) in ShapeColorPoints
    ensures forall p, q :: p in ShapeColorPoints && q in ShapeColorPoints && p != q ==> ShapeColorPoints[p] != ShapeColorPoints[q]
    ensures PointsOf("Circle", (255, 0, 0)) == 0
  {
    assert ("Circle", (255, 0, 0)) !in ShapeColorPoints by {
      assert "Circle" != "circle";
      assert "Circle" != "triangle" && "Circle" != "square";
    }
    forall p, q | p in ShapeColorPoints && q in ShapeColorPoints && p != q
      ensures ShapeColorPoints[p] != ShapeColorPoints[q]
    {
      Pairwise(p, q);
    }
  }

  lemma Pairwise(p: (string, Colour), q: (string, Colour))
    requires p in ShapeColorPoints && q in ShapeColorPoints && p != q
    ensures ShapeColorPoints[p] != ShapeColorPoints[q]
  {
  }
}
