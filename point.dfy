/** Point: a position in space. A direction can be added to or subtracted from a point, and two
    points differ by a direction; there is no sum of two points. */
module Points {
  import opened Coordinates
  import opened Directions

  datatype PointTag = PointTag

  type Point = Coordinate<PointTag>

  /** Point += Direction (and the derived Point + Direction and Direction + Point). */
  function Displace(p: Point, d: Direction): (r: Point)
    ensures r.x == p.x + d.x && r.y == p.y + d.y && r.z == p.z + d.z
  {
    Coordinate(p.x + d.x, p.y + d.y, p.z + d.z)
  }

  /** Point - Point: the direction leading from `start` to `end`. */
  function Difference(end: Point, start: Point): (d: Direction)
    ensures d.x == end.x - start.x && d.y == end.y - start.y && d.z == end.z - start.z
  {
    Coordinate(end.x - start.x, end.y - start.y, end.z - start.z)
  }

  /** Point -= Direction (and the derived Point - Direction): displacement by the negation. */
  function DisplaceBack(p: Point, d: Direction): (r: Point)
    ensures r.x == p.x - d.x && r.y == p.y - d.y && r.z == p.z - d.z
  {
    Displace(p, Negate(d))
  }

  /** Displacing and then taking the difference gives the direction back; displacing by a
      difference reaches its end point; displacing back undoes displacing. */
  lemma AffineRoundTrips(p: Point, q: Point, d: Direction)
    ensures Difference(Displace(p, d), p) == d
    ensures Displace(p, Difference(q, p)) == q
    ensures DisplaceBack(Displace(p, d), d) == p && Displace(DisplaceBack(p, d), d) == p
    ensures Difference(q, p) == Negate(Difference(p, q))
  {
  }
}
