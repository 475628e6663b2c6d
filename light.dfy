/** Point lights and the Phong reflection model: the ambient, diffuse and specular contributions
    and their sum. */
module Lights {
  import opened CppStd
  import opened Outcomes
  import opened DoubleComparison
  import opened Coordinates
  import opened Directions
  import opened Points
  import Colors
  import opened Materials
  import opened Reflections

  /** A point light: its position and the colour of its light. */
  datatype Light = Light(position: Point, intensity: Colors.Color)

  /** pointLight: the light at the given point with the given intensity. */
  function PointLight(point: Point, intensity: Colors.Color): (light: Light)
    ensures light.position == point && light.intensity == intensity
  {
    Light(point, intensity)
  }

  /** ambient: the effective colour scaled by the material's ambient coefficient. */
  function Ambient(effectiveColor: Colors.Color, material: Material): (c: Colors.Color)
  {
    Colors.Scale(effectiveColor, material.ambient)
  }

  /** The normalised direction from the lit position to the light; normalize throws (an invalid
      argument) when the light sits at the position. */
  ghost function LightDirection(light: Light, position: Point): Result<Direction> {
    Normalize(Difference(light.position, position))
  }

  /** diffuse: black when the light is behind the surface, otherwise the effective colour scaled
      by the diffuse coefficient and by the cosine between light direction and normal. */
  ghost function Diffuse(effectiveColor: Colors.Color, material: Material, light: Light, position: Point,
                         normal: Direction): Result<Colors.Color>
  {
    match LightDirection(light, position)
    case Err(e) => Err(e)
    case Ok(lightDirection) =>
      var lightDotNormal := Dot(lightDirection, normal);
      if lightDotNormal < 0.0 then Ok(Colors.Black)
      else Ok(Colors.Scale(Colors.Scale(effectiveColor, material.diffuse), lightDotNormal))
  }

  /** specular: black when the light is behind the surface or the reflected light points away
      from the eye, otherwise the light's intensity scaled by the specular coefficient and by the
      cosine between reflection and eye raised to the shininess. */
  ghost function Specular(material: Material, light: Light, position: Point, eye: Direction,
                          normal: Direction): Result<Colors.Color>
  {
    match LightDirection(light, position)
    case Err(e) => Err(e)
    case Ok(lightDirection) =>
      var lightDotNormal := Dot(lightDirection, normal);
      if lightDotNormal < 0.0 then Ok(Colors.Black)
      else
        var reflectDirection := Reflect(Directions.Negate(lightDirection), normal);
        var reflectDotEye := Dot(reflectDirection, eye);
        if reflectDotEye <= 0.0 then Ok(Colors.Black)
        else Ok(Colors.Scale(Colors.Scale(light.intensity, material.specular), Pow(reflectDotEye, material.shininess)))
  }

  /** lighting: the sum of the ambient, diffuse and specular contributions for the material's
      colour lit by the light. */
  ghost function Lighting(material: Material, light: Light, position: Point, eye: Direction,
                          normal: Direction): Result<Colors.Color>
  {
    var effectiveColor := Colors.Hadamard(material.color, light.intensity);
    match Diffuse(effectiveColor, material, light, position, normal)
    case Err(e) => Err(e)
    case Ok(diffuseColor) =>
      match Specular(material, light, position, eye, normal)
      case Err(e) => Err(e)
      case Ok(specularColor) => Ok(Colors.Add(Colors.Add(Ambient(effectiveColor, material), diffuseColor), specularColor))
  }

  /** lighting fails exactly when the light is at the lit position (its distance is zero within
      Epsilon), and then with an invalid argument. */
  lemma {:induction false} LightingFailsAtTheLight(material: Material, light: Light, position: Point,
                                                   eye: Direction, normal: Direction)
    ensures Lighting(material, light, position, eye, normal).Err?
      <==> IsEqual(Magnitude(Difference(light.position, position)), 0.0)
    ensures Lighting(material, light, position, eye, normal).Err?
      ==> Lighting(material, light, position, eye, normal).error == InvalidArgument
  {
  }

  /** With the light behind the surface only the ambient contribution remains. */
  lemma {:induction false} LightBehindSurface(material: Material, light: Light, position: Point,
                                              eye: Direction, normal: Direction)
    requires LightDirection(light, position).Ok? && Dot(LightDirection(light, position).value, normal) < 0.0
    ensures Lighting(material, light, position, eye, normal)
      == Ok(Ambient(Colors.Hadamard(material.color, light.intensity), material))
  {
  }

  /** With non-negative colours and coefficients, no channel of the lighting is below the
      ambient contribution: diffuse and specular only add light. */
  lemma {:induction false} LightingAddsToAmbient(material: Material, light: Light, position: Point,
                                                 eye: Direction, normal: Direction)
    requires material.color.red >= 0.0 && material.color.green >= 0.0 && material.color.blue >= 0.0
    requires light.intensity.red >= 0.0 && light.intensity.green >= 0.0 && light.intensity.blue >= 0.0
    requires material.diffuse >= 0.0 && material.specular >= 0.0
    requires Lighting(material, light, position, eye, normal).Ok?
    ensures var c, a := Lighting(material, light, position, eye, normal).value,
                       Ambient(Colors.Hadamard(material.color, light.intensity), material);
      c.red >= a.red && c.green >= a.green && c.blue >= a.blue
  {
    var effectiveColor := Colors.Hadamard(material.color, light.intensity);
    var d := Diffuse(effectiveColor, material, light, position, normal).value;
    var s := Specular(material, light, position, eye, normal).value;
    assert d.red >= 0.0 && d.green >= 0.0 && d.blue >= 0.0 by {
      DiffuseIsNotNegative(effectiveColor, material, light, position, normal);
    }
    assert s.red >= 0.0 && s.green >= 0.0 && s.blue >= 0.0 by {
      SpecularIsNotNegative(material, light, position, eye, normal);
    }
  }

  /** The diffuse contribution of non-negative colours and coefficients is not negative. */
  lemma {:induction false} DiffuseIsNotNegative(effectiveColor: Colors.Color, material: Material, light: Light,
                                                position: Point, normal: Direction)
    requires effectiveColor.red >= 0.0 && effectiveColor.green >= 0.0 && effectiveColor.blue >= 0.0
    requires material.diffuse >= 0.0
    requires Diffuse(effectiveColor, material, light, position, normal).Ok?
    ensures var d := Diffuse(effectiveColor, material, light, position, normal).value;
      d.red >= 0.0 && d.green >= 0.0 && d.blue >= 0.0
  {
    var lightDirection := LightDirection(light, position).value;
    var k := Dot(lightDirection, normal);
    if k >= 0.0 {
      ScaledIsNotNegative(effectiveColor, material.diffuse);
      ScaledIsNotNegative(Colors.Scale(effectiveColor, material.diffuse), k);
    }
  }

  /** The specular contribution of a non-negative intensity and coefficient is not negative. */
  lemma {:induction false} SpecularIsNotNegative(material: Material, light: Light, position: Point,
                                                 eye: Direction, normal: Direction)
    requires light.intensity.red >= 0.0 && light.intensity.green >= 0.0 && light.intensity.blue >= 0.0
    requires material.specular >= 0.0
    requires Specular(material, light, position, eye, normal).Ok?
    ensures var s := Specular(material, light, position, eye, normal).value;
      s.red >= 0.0 && s.green >= 0.0 && s.blue >= 0.0
  {
    var lightDirection := LightDirection(light, position).value;
    var reflectDotEye := Dot(Reflect(Directions.Negate(lightDirection), normal), eye);
    if Dot(lightDirection, normal) >= 0.0 && reflectDotEye > 0.0 {
      ScaledIsNotNegative(light.intensity, material.specular);
      ScaledIsNotNegative(Colors.Scale(light.intensity, material.specular), Pow(reflectDotEye, material.shininess));
    }
  }

  /** A colour with no negative channel scaled by a non-negative factor has no negative channel. */
  lemma {:induction false} ScaledIsNotNegative(c: Colors.Color, k: real)
    requires c.red >= 0.0 && c.green >= 0.0 && c.blue >= 0.0 && k >= 0.0
    ensures var s := Colors.Scale(c, k); s.red >= 0.0 && s.green >= 0.0 && s.blue >= 0.0
  {
  }

  /** A light at distance dist >= Epsilon along the unit direction u is seen in direction u. */
  lemma {:induction false} DirectionToLight(light: Light, position: Point, u: Direction, dist: real)
    requires Dot(u, u) == 1.0 && dist >= Epsilon
    requires Difference(light.position, position) == Directions.Scale(u, dist)
    ensures LightDirection(light, position) == Ok(u)
  {
    var d := Difference(light.position, position);
    assert d.x * d.x + d.y * d.y + d.z * d.z == dist * dist by {
      assert d.x * d.x + d.y * d.y + d.z * d.z == (u.x * u.x + u.y * u.y + u.z * u.z) * (dist * dist);
    }
    MagnitudeOfScaled(d, dist);
    assert Divide(d, dist) == u by {
      assert d.x / dist == u.x && d.y / dist == u.y && d.z / dist == u.z;
    }
  }

  /** Light arriving along a unit normal is reflected straight back along it. */
  lemma {:induction false} ReflectedBackAlongNormal(normal: Direction)
    requires Dot(normal, normal) == 1.0
    ensures Reflect(Directions.Negate(normal), normal) == normal
  {
    var incoming := Directions.Negate(normal);
    assert Dot(incoming, normal) == -1.0 by {
      assert Dot(incoming, normal) == -Dot(normal, normal);
    }
    ReflectComponents(incoming, normal);
  }

  /** With the light straight in front of the surface along its unit normal, the diffuse
      contribution is the whole of the effective colour times the diffuse coefficient, and the
      specular one depends only on the eye's component along the normal: the intensity times
      the specular coefficient times that component raised to the shininess, when it is positive. */
  lemma {:induction false} LightingHeadOn(material: Material, light: Light, position: Point,
                                          eye: Direction, normal: Direction, dist: real)
    requires Dot(normal, normal) == 1.0 && dist >= Epsilon
    requires Difference(light.position, position) == Directions.Scale(normal, dist)
    ensures var e := Colors.Hadamard(material.color, light.intensity);
      Lighting(material, light, position, eye, normal)
        == Ok(Colors.Add(Colors.Add(Ambient(e, material), Colors.Scale(e, material.diffuse)),
                         if Dot(normal, eye) > 0.0
                         then Colors.Scale(Colors.Scale(light.intensity, material.specular),
                                           Pow(Dot(normal, eye), material.shininess))
                         else Colors.Black))
  {
    var e := Colors.Hadamard(material.color, light.intensity);
    assert Diffuse(e, material, light, position, normal) == Ok(Colors.Scale(e, material.diffuse)) by {
      DiffuseHeadOn(e, material, light, position, normal, dist);
    }
    SpecularHeadOn(material, light, position, eye, normal, dist);
  }

  /** The diffuse contribution of a light straight in front along the unit normal. */
  lemma {:induction false} DiffuseHeadOn(effectiveColor: Colors.Color, material: Material, light: Light,
                                         position: Point, normal: Direction, dist: real)
    requires Dot(normal, normal) == 1.0 && dist >= Epsilon
    requires Difference(light.position, position) == Directions.Scale(normal, dist)
    ensures Diffuse(effectiveColor, material, light, position, normal)
      == Ok(Colors.Scale(Colors.Scale(effectiveColor, material.diffuse), 1.0))
  {
    DirectionToLight(light, position, normal, dist);
  }

  /** The specular contribution of a light straight in front along the unit normal: the
      reflection points along the normal, so its cosine with the eye is the eye's component along
      the normal. */
  lemma {:induction false} SpecularHeadOn(material: Material, light: Light, position: Point,
                                          eye: Direction, normal: Direction, dist: real)
    requires Dot(normal, normal) == 1.0 && dist >= Epsilon
    requires Difference(light.position, position) == Directions.Scale(normal, dist)
    ensures Specular(material, light, position, eye, normal)
      == Ok(if Dot(normal, eye) > 0.0
            then Colors.Scale(Colors.Scale(light.intensity, material.specular), Pow(Dot(normal, eye), material.shininess))
            else Colors.Black)
  {
    DirectionToLight(light, position, normal, dist);
    ReflectedBackAlongNormal(normal);
  }

  /** The eye between the light and the surface, all on the normal: every channel shows the
      effective colour times the ambient plus diffuse coefficients, plus the light's intensity
      times the specular coefficient, whatever the (natural) shininess. */
  lemma {:induction false} EyeBetweenLightAndSurface(material: Material, light: Light, position: Point,
                                                     eye: Direction, normal: Direction, dist: real)
    requires material.shininess == material.shininess.Floor as real && material.shininess >= 0.0
    requires Dot(normal, normal) == 1.0 && eye == normal && dist >= Epsilon
    requires Difference(light.position, position) == Directions.Scale(normal, dist)
    ensures Lighting(material, light, position, eye, normal)
      == Ok(HeadOnColor(Colors.Hadamard(material.color, light.intensity), light.intensity,
                        material.ambient + material.diffuse, material.specular))
  {
    var e := Colors.Hadamard(material.color, light.intensity);
    assert Dot(normal, eye) == 1.0;
    assert Pow(Dot(normal, eye), material.shininess) == 1.0 by {
      PowOfOne(material.shininess);
    }
    var sum := Colors.Add(Colors.Add(Colors.Scale(e, material.ambient), Colors.Scale(e, material.diffuse)),
                          Colors.Scale(Colors.Scale(light.intensity, material.specular), 1.0));
    assert Lighting(material, light, position, eye, normal) == Ok(sum) by {
      LightingHeadOn(material, light, position, eye, normal, dist);
    }
    HeadOnSum(e, light.intensity, material.ambient, material.diffuse, material.specular);
  }

  /** With the default material and white light, the sum above is 1.9 in every channel. */
  lemma DefaultMaterialHeadOn()
    ensures HeadOnColor(Colors.Hadamard(DefaultMaterial.color, Colors.White), Colors.White,
                        DefaultMaterial.ambient + DefaultMaterial.diffuse, DefaultMaterial.specular)
      == Colors.Color(1.9, 1.9, 1.9)
  {
  }

  /** The light behind the surface, on the far side along the normal: a white material with the
      default ambient coefficient under white light shows only its ambient 0.1 in every channel. */
  lemma {:induction false} LightBehindTheSurface(material: Material, light: Light, position: Point,
                                                 eye: Direction, normal: Direction, dist: real)
    requires material.color == Colors.White && light.intensity == Colors.White && material.ambient == 0.1
    requires Dot(normal, normal) == 1.0 && dist >= Epsilon
    requires Difference(light.position, position) == Directions.Scale(Directions.Negate(normal), dist)
    ensures Lighting(material, light, position, eye, normal) == Ok(Colors.Color(0.1, 0.1, 0.1))
  {
    var away := Directions.Negate(normal);
    assert Dot(away, away) == 1.0 && Dot(away, normal) == -1.0 by {
      assert Dot(away, away) == Dot(normal, normal) && Dot(away, normal) == -Dot(normal, normal);
    }
    DirectionToLight(light, position, away, dist);
    LightBehindSurface(material, light, position, eye, normal);
    assert Colors.Hadamard(material.color, light.intensity) == Colors.White;
  }

  /** The colour seen head on: the effective colour times the ambient plus diffuse coefficients,
      plus the intensity times the specular coefficient, channel by channel. */
  function HeadOnColor(e: Colors.Color, i: Colors.Color, ambientAndDiffuse: real, specular: real): Colors.Color
  {
    Colors.Color(e.red * ambientAndDiffuse + i.red * specular,
                 e.green * ambientAndDiffuse + i.green * specular,
                 e.blue * ambientAndDiffuse + i.blue * specular)
  }

  /** The channels of ambient plus diffuse plus specular for a light straight in front with the
      eye on the normal. */
  lemma {:induction false} HeadOnSum(e: Colors.Color, i: Colors.Color, ambient: real, diffuse: real, specular: real)
    ensures Colors.Add(Colors.Add(Colors.Scale(e, ambient), Colors.Scale(e, diffuse)), Colors.Scale(Colors.Scale(i, specular), 1.0))
      == HeadOnColor(e, i, ambient + diffuse, specular)
  {
  }
}
