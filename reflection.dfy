/** Reflection of a direction about a surface normal. */
module Reflections {
  import opened Coordinates
  import opened Directions

  /** reflect: the incoming direction minus twice its component along the normal,
      in - normal * 2 * dot(in, normal). */
  function Reflect(incoming: Direction, normal: Direction): (r: Direction)
  {
    Subtract(incoming, Scale(Scale(normal, 2.0), Dot(incoming, normal)))
  }

  /** The components of a reflection: each loses 2 k times the normal's component, where k is
      the incoming direction's component along the normal. */
  lemma {:induction false} ReflectComponents(incoming: Direction, normal: Direction)
    ensures var r, k := Reflect(incoming, normal), Dot(incoming, normal);
      r.x == incoming.x - 2.0 * k * normal.x && r.y == incoming.y - 2.0 * k * normal.y
      && r.z == incoming.z - 2.0 * k * normal.z
  {
  }

  /** A direction orthogonal to the normal is not changed by the reflection. */
  lemma {:induction false} OrthogonalIsUnchanged(incoming: Direction, normal: Direction)
    requires Dot(incoming, normal) == 0.0
    ensures Reflect(incoming, normal) == incoming
  {
    ReflectComponents(incoming, normal);
  }

  /** About a unit normal, the reflection reverses the component along the normal. */
  lemma {:induction false} ReflectionFlipsNormalComponent(incoming: Direction, normal: Direction)
    requires Dot(normal, normal) == 1.0
    ensures Dot(Reflect(incoming, normal), normal) == -Dot(incoming, normal)
  {
    var r, k := Reflect(incoming, normal), Dot(incoming, normal);
    ReflectComponents(incoming, normal);
    calc {
      Dot(r, normal);
      (incoming.x - 2.0 * k * normal.x) * normal.x + (incoming.y - 2.0 * k * normal.y) * normal.y
        + (incoming.z - 2.0 * k * normal.z) * normal.z;
      k - 2.0 * k * Dot(normal, normal);
      -k;
    }
  }

  /** About a unit normal, reflecting twice gives the incoming direction back. */
  lemma {:induction false} ReflectTwiceIsIdentity(incoming: Direction, normal: Direction)
    requires Dot(normal, normal) == 1.0
    ensures Reflect(Reflect(incoming, normal), normal) == incoming
  {
    var r, k := Reflect(incoming, normal), Dot(incoming, normal);
    ReflectionFlipsNormalComponent(incoming, normal);
    ReflectComponents(incoming, normal);
    ReflectComponents(r, normal);
  }

  /** About a unit normal, the reflection keeps the length of the direction. */
  lemma {:induction false} ReflectionKeepsLength(incoming: Direction, normal: Direction)
    requires Dot(normal, normal) == 1.0
    ensures Dot(Reflect(incoming, normal), Reflect(incoming, normal)) == Dot(incoming, incoming)
  {
    var r, k := Reflect(incoming, normal), Dot(incoming, normal);
    ReflectComponents(incoming, normal);
    calc {
      Dot(r, r);
      (incoming.x - 2.0 * k * normal.x) * (incoming.x - 2.0 * k * normal.x)
        + (incoming.y - 2.0 * k * normal.y) * (incoming.y - 2.0 * k * normal.y)
        + (incoming.z - 2.0 * k * normal.z) * (incoming.z - 2.0 * k * normal.z);
      Dot(incoming, incoming) - 4.0 * k * Dot(incoming, normal) + 4.0 * k * k * Dot(normal, normal);
      Dot(incoming, incoming);
    }
  }

  /** Reflecting about a unit normal along the y axis flips the y component only; the test's
      (1, -1, 0) about (0, 1, 0) becomes (1, 1, 0). */
  lemma {:induction false} ReflectionAboutYAxis(incoming: Direction, normal: Direction)
    requires normal.x == 0.0 && normal.z == 0.0 && normal.y * normal.y == 1.0
    ensures Reflect(incoming, normal) == Coordinate(incoming.x, -incoming.y, incoming.z)
  {
    ReflectComponents(incoming, normal);
  }

  /** The direction (0, -1, 0) reflected about the slanted normal (h, h, 0) with h the square root
      of 1/2 is the x axis. */
  lemma {:induction false} ReflectionOffSlantedSurface(incoming: Direction, normal: Direction, h: real)
    requires h * h == 0.5
    requires incoming.x == 0.0 && incoming.y == -1.0 && incoming.z == 0.0
    requires normal.x == h && normal.y == h && normal.z == 0.0
    ensures Reflect(incoming, normal) == Coordinate(1.0, 0.0, 0.0)
  {
    assert Dot(incoming, normal) == -h;
    ReflectComponents(incoming, normal);
  }
}
