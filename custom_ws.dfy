/**
 * The per-connection websocket actor (src/custom_ws.rs): it turns client
 * messages into instructions for the physics engine, recording the client's
 * name and facing angle in the registry, and rewrites the engine's state
 * messages before they go to the client.
 */
module CustomWs {
  import opened Wrappers
  import opened Protocol
  import opened AppState

  /** A message from the browser, as JSON-decoded by the server. */
  datatype ClientInstruction =
    | JoinGame(username: string)
    | GameAction(w: bool, a: bool, s: bool, d: bool, dir: F32)

  /** What the physics engine is told: the facing angle and the name stay behind
      in the registry. */
  datatype GameInstruction =
    | JoinGame
    | GameAction(w: bool, a: bool, s: bool, d: bool)

  /** An instruction tagged with the address of the connection that sent it. */
  datatype PhysicsInstruction = PhysicsInstruction(gameInstruction: GameInstruction, sentFrom: Addr)

  /** A websocket frame. The text of a `Text` frame is abstracted to the result of
      decoding it as a `ClientInstruction`: `None` when it is not valid JSON of
      that shape. */
  datatype Frame =
    | Text(decoded: Option<ClientInstruction>)
    | Binary | Continuation | Ping | Pong | Close | Nop

  /** One item of the actor's input stream: a frame, or a protocol error. */
  datatype StreamItem = Received(frame: Frame) | ProtocolError

  /** The two `unwrap` calls that can panic the handler. */
  datatype Panic = UndecodableText | UnregisteredSender

  /** An instruction sent to an engine address. */
  datatype Dispatch = Dispatch(to: EngineAddr, instruction: PhysicsInstruction)

  /** What handling one stream item yields: the message sent, if any, and the
      registry afterwards. */
  datatype Handled = Handled(sent: Option<Dispatch>, players: map<Addr, PlayerInfo>)

  /** The name stored for every player who joins. */
  const Unnamed := "Unnamed"

  predicate IsText(item: StreamItem) {
    item.Received? && item.frame.Text?
  }

  /**
   * The stream handler as a function of the registry, the handling connection's
   * own address `self` and the engine address. A text frame that decodes and
   * comes from a registered connection yields exactly one instruction, sent to
   * the engine and tagged with `self`, and updates only `self`'s entry; every
   * other item leaves the registry alone.
   */
  function HandleStream(players: map<Addr, PlayerInfo>, self: Addr, engine: EngineAddr, item: StreamItem): (r: Result<Handled, Panic>)
    ensures !IsText(item) ==> r == Ok(Handled(None, players))
    ensures IsText(item) && item.frame.decoded.None? ==> r == Err(UndecodableText)
    ensures IsText(item) && item.frame.decoded.Some? && self !in players ==> r == Err(UnregisteredSender)
    ensures IsText(item) && item.frame.decoded.Some? && self in players ==>
      && r.Ok?
      && r.value.sent.Some?
      && r.value.sent.value.to == engine
      && r.value.sent.value.instruction.sentFrom == self
      && r.value.players.Keys == players.Keys
      && (forall a :: a in players && a != self ==> r.value.players[a] == players[a])
    ensures forall name :: item == Received(Text(Some(ClientInstruction.JoinGame(name)))) && self in players ==>
      && r.value.sent.value.instruction.gameInstruction == GameInstruction.JoinGame
      && r.value.players[self] == PlayerInfo(Unnamed, players[self].dir)
    ensures forall w, a, s, d, dir :: item == Received(Text(Some(ClientInstruction.GameAction(w, a, s, d, dir)))) && self in players ==>
      && r.value.sent.value.instruction.gameInstruction == GameInstruction.GameAction(w, a, s, d)
      && r.value.players[self] == PlayerInfo(players[self].username, dir)
  {
    match item
    case Received(Text(decoded)) =>
      if decoded.None? then Err(UndecodableText)
      else
        // A JoinGame's name is replaced before anything else looks at it.
        var action := if decoded.value.JoinGame? then decoded.value.(username := Unnamed) else decoded.value;
        if self !in players then Err(UnregisteredSender)
        else
          var info := players[self];
          var (instruction, info') :=
            match action
            case JoinGame(username) => (GameInstruction.JoinGame, info.(username := username))
            case GameAction(w, a, s, d, dir) => (GameInstruction.GameAction(w, a, s, d), info.(dir := dir));
          Ok(Handled(Some(Dispatch(engine, PhysicsInstruction(instruction, self))), players[self := info']))
    case _ => Ok(Handled(None, players))
  }

  /** The websocket actor of one connection. */
  class Ws {
    const state: State
    /** The actor's own address (`ctx.address()`). */
    const address: Addr

    constructor (state: State, address: Addr)
      ensures this.state == state && this.address == address
    {
      this.state := state;
      this.address := address;
    }

    /** `Actor::started`: the connection registers itself. */
    method Started()
      modifies state
      ensures state.connectedPlayers == old(state.connectedPlayers)[address := DefaultPlayerInfo]
    {
      state.Register(address);
    }

    /** `StreamHandler::handle`: updates the registry in place and returns the
        message sent to the engine, exactly as `HandleStream` describes. */
    method Handle(item: StreamItem) returns (r: Result<Option<Dispatch>, Panic>)
      modifies state
      ensures match HandleStream(old(state.connectedPlayers), address, state.physicsEngineAddress, item)
        case Ok(handled) => r == Ok(handled.sent) && state.connectedPlayers == handled.players
        case Err(panic) => r == Err(panic) && state.connectedPlayers == old(state.connectedPlayers)
    {
      match item {
        case Received(Text(decoded)) =>
          if decoded.None? {
            return Err(UndecodableText);
          }
          var action := decoded.value;
          if action.JoinGame? {
            action := action.(username := Unnamed);
          }
          if address !in state.connectedPlayers {
            return Err(UnregisteredSender);
          }
          var instruction;
          match action {
            case JoinGame(username) =>
              state.connectedPlayers := state.connectedPlayers[address := state.connectedPlayers[address].(username := username)];
              instruction := GameInstruction.JoinGame;
            case GameAction(w, a, s, d, dir) =>
              state.connectedPlayers := state.connectedPlayers[address := state.connectedPlayers[address].(dir := dir)];
              instruction := GameInstruction.GameAction(w, a, s, d);
          }
          var engine := state.GetPhysicsEngine();
          r := Ok(Some(Dispatch(engine, PhysicsInstruction(instruction, address))));
        case _ =>
          r := Ok(None);
      }
    }

    /**
     * `Handler<PhysicsStateResponse>::handle`: every enemy is given the
     * recipient's own stored facing angle; nothing else in the message changes.
     * The registry lookup happens once per enemy, so it panics only when there
     * is an enemy to rewrite and the connection is not registered.
     */
    method HandleResponse(msg: PhysicsStateResponse) returns (r: Result<PhysicsStateResponse, Panic>)
      ensures r.Err? <==> |msg.enemies| > 0 && address !in state.connectedPlayers
      ensures r.Err? ==> r.error == UnregisteredSender
      ensures r.Ok? ==>
        && r.value.(enemies := msg.enemies) == msg
        && |r.value.enemies| == |msg.enemies|
        && forall j :: 0 <= j < |msg.enemies| ==>
             r.value.enemies[j] == msg.enemies[j].(dir := state.connectedPlayers[address].dir)
    {
      var enemies := msg.enemies;
      var i := 0;
      while i < |enemies|
        invariant 0 <= i <= |enemies| == |msg.enemies|
        invariant i > 0 ==> address in state.connectedPlayers
        invariant forall j :: 0 <= j < i ==> enemies[j] == msg.enemies[j].(dir := state.connectedPlayers[address].dir)
        invariant forall j :: i <= j < |enemies| ==> enemies[j] == msg.enemies[j]
      {
        if address !in state.connectedPlayers {
          return Err(UnregisteredSender);
        }
        enemies := enemies[i := enemies[i].(dir := state.connectedPlayers[address].dir)];
        i := i + 1;
      }
      r := Ok(msg.(enemies := enemies));
    }
  }

  /** A player who joins and then acts is stored as "Unnamed" with the facing
      angle of the action, whatever name it asked for. */
  lemma JoinThenAct(players: map<Addr, PlayerInfo>, self: Addr, engine: EngineAddr, name: string,
                    w: bool, a: bool, s: bool, d: bool, dir: F32)
    requires self in players
    ensures var joined := HandleStream(players, self, engine, Received(Text(Some(ClientInstruction.JoinGame(name)))));
            && joined.Ok?
            && var acted := HandleStream(joined.value.players, self, engine, Received(Text(Some(ClientInstruction.GameAction(w, a, s, d, dir)))));
            && acted.Ok?
            && acted.value.players == players[self := PlayerInfo(Unnamed, dir)]
  {
  }
}
