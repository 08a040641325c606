/** The values shared by the surface primitives (src/hittable.rs, src/material.rs):
    material parameters, triangles and the hit record that carries a material. */
module Hittables {
  import opened Base

  /** A material's parameters; how it scatters light is not part of this model. */
  datatype Material =
    | Diffuse(color: Vec3, albedo: real)
    | Reflective(albedoColor: Vec3, fuzz: real)
    | Dielectric(refractionIndex: real, color: Vec3)

  /** A triangle of a mesh: three vertices and its material. The normal the
      source derives from the vertices is floating-point work and is left out. */
  datatype Triangle = Triangle(a: Vec3, b: Vec3, c: Vec3, material: Material)

  /** The hit record of src/hittable.rs: the one with a material reference. */
  datatype HitRecord = HitRecord(point: Vec3, normal: Vec3, t: real, material: Material)

  /** A triangle's intersection routine, for one ray and one interval. */
  type TriangleHit = (Triangle, Ray, real, real) -> Option<HitRecord>
}
