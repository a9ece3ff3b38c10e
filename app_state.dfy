/**
 * The application state shared by every websocket actor: the registry of
 * connected players, keyed by the actor's address, and the address of the
 * physics engine actor (src/state.rs).
 */
module AppState {
  import opened Protocol

  /** The address of one websocket actor (`Addr<Ws>`): opaque, only compared. */
  datatype Addr = Addr(id: nat)

  /** The address of the physics engine actor (`Addr<PhysicsEngine>`). */
  datatype EngineAddr = EngineAddr(id: nat)

  /** What the registry records about one connection: the display name and the
      last facing angle the client reported. */
  datatype PlayerInfo = PlayerInfo(username: string, dir: F32)

  /** The entry a fresh connection gets: an empty name, facing angle 0. */
  const DefaultPlayerInfo := PlayerInfo("", 0.0)

  /** The registry. The source keeps it in a concurrent map; here it is a
      sequential map that the methods reassign. */
  class State {
    var connectedPlayers: map<Addr, PlayerInfo>
    const physicsEngineAddress: EngineAddr

    /** `State::new`: no player is connected yet. */
    constructor (physicsEngineAddress: EngineAddr)
      ensures connectedPlayers == map[]
      ensures this.physicsEngineAddress == physicsEngineAddress
    {
      connectedPlayers := map[];
      this.physicsEngineAddress := physicsEngineAddress;
    }

    /** Records a new connection with a default entry, replacing any entry
        already stored under the same address. */
    method Register(address: Addr)
      modifies this
      ensures connectedPlayers == old(connectedPlayers)[address := DefaultPlayerInfo]
      ensures connectedPlayers.Keys == old(connectedPlayers).Keys + {address}
    {
      connectedPlayers := connectedPlayers[address := DefaultPlayerInfo];
    }

    /** Forgets a connection; an address that is not registered is ignored. */
    method Remove(address: Addr)
      modifies this
      ensures connectedPlayers == old(connectedPlayers) - {address}
      ensures address !in connectedPlayers
    {
      connectedPlayers := connectedPlayers - {address};
    }

    /** The engine address given at construction; it is a constant, so no
        method can change it. */
    method GetPhysicsEngine() returns (r: EngineAddr)
      ensures r == physicsEngineAddress
    {
      r := physicsEngineAddress;
    }
  }

  /** Removing twice is the same as removing once. */
  lemma RemoveIdempotent(players: map<Addr, PlayerInfo>, address: Addr)
    ensures (players - {address}) - {address} == players - {address}
  {
  }

  /** A connection that registers and is then removed leaves the registry
      exactly as it found it, provided its address was not registered before. */
  lemma RegisterThenRemove(players: map<Addr, PlayerInfo>, address: Addr)
    requires address !in players
    ensures players[address := DefaultPlayerInfo] - {address} == players
  {
  }
}
