/** Material: the surface colour and the Phong reflection coefficients of a shape. */
module Materials {
  import opened Colors

  datatype Material = Material(color: Color, ambient: real, diffuse: real, specular: real, shininess: real)

  /** defaultMaterial: white, ambient 0.1, diffuse 0.9, specular 0.9, shininess 200. */
  const DefaultMaterial: Material := Material(White, 0.1, 0.9, 0.9, 200.0)
}
