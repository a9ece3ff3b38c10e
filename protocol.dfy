/**
 * The per-tick state message the server sends to each client
 * (`PhysicsStateResponse`, serialised as JSON). The gateway rewrites its
 * enemies' facing angles and the browser client buffers it by timestamp.
 */
module Protocol {

  /** A 32-bit float. Every float in this model is only copied, never computed,
      so its value domain does not matter and no rounding is modelled. */
  type F32 = real

  datatype Coords = Coords(x: F32, y: F32)

  /** One other player as seen by the recipient. */
  datatype EnemyInfo = EnemyInfo(coords: Coords, dir: F32, username: string)

  /** The snapshot of the world one connection receives on one tick. */
  datatype PhysicsStateResponse = PhysicsStateResponse(
    myCoords: Coords,
    enemies: seq<EnemyInfo>,
    bullets: seq<Coords>,
    timestamp: int)
}
