/** Record shapes shared by the stores and the scene components (types.ts),
    plus the small vector algebra that the force gesture needs. Coordinates,
    masses and energies are modelled as exact reals. */
module Types {

  /** `T | null` in the source. */
  datatype Option<+T> = None | Some(value: T)

  /** A `[number, number, number]` world-space point or vector. */
  datatype Vec3 = Vec3(x: real, y: real, z: real)

  const Zero: Vec3 := Vec3(0.0, 0.0, 0.0)

  function Sum(a: Vec3, b: Vec3): Vec3
  {
    Vec3(a.x + b.x, a.y + b.y, a.z + b.z)
  }

  /** `a.sub(b)` of three.js: componentwise difference. */
  function Difference(a: Vec3, b: Vec3): Vec3
  {
    Vec3(a.x - b.x, a.y - b.y, a.z - b.z)
  }

  /** A user-placed particle: its id, its mass and its creation-time position. */
  datatype InteractiveObject = InteractiveObject(id: string, mass: real, position: Vec3)

  /** One sample of the pendulum's energy, stamped with the wall-clock time in milliseconds. */
  datatype EnergyDataPoint = EnergyDataPoint(time: int, kineticEnergy: real, potentialEnergy: real, totalEnergy: real)
}
