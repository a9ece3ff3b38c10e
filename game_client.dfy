/**
 * The browser client's `Game` (static/game.js): a buffer of received state
 * messages kept by `pushSorted` on their timestamps and capped at 1000
 * entries, the choice of the state to draw for a target time, and the
 * keyboard and mouse flags the client reports back.
 *
 * Because `pushSorted` inserts a new greatest element at the front (see
 * `PushSorted.GreatestGoesFirst`), snapshots that arrive in timestamp order
 * leave the buffer NEWEST-FIRST; `getGameState`'s bracketing test and the
 * `pop` of the last (oldest) entry both read it that way.
 */
module GameClient {
  import opened Wrappers
  import opened Protocol
  import opened PushSorted

  /** A state message as the client holds it. */
  type GameState = PhysicsStateResponse

  /** The buffer never keeps more than this many states. */
  const MaxBufferedStates := 1000

  /** The key codes of W, A, S and D. */
  const KeyCodeW := 87
  const KeyCodeA := 65
  const KeyCodeS := 83
  const KeyCodeD := 68

  /** The comparator `insertGameState` hands to `pushSorted`. */
  function CompareTimestamps(a: GameState, b: GameState): (r: int)
    ensures r > 0 <==> a.timestamp > b.timestamp
    ensures r < 0 <==> a.timestamp < b.timestamp
  {
    a.timestamp - b.timestamp
  }

  /** The initial value of `getGameState`'s result variable: only its timestamp,
      0, matters. */
  const EmptyGameState := PhysicsStateResponse(Coords(0.0, 0.0), [], [], 0)

  /** The buffer after `insertGameState`'s `pop`: the last entry is dropped when
      the buffer has grown past the cap. */
  function Capped<T>(s: seq<T>): (r: seq<T>)
    ensures |s| <= MaxBufferedStates + 1 ==> |r| <= MaxBufferedStates
    ensures |r| == if |s| > MaxBufferedStates then |s| - 1 else |s|
    ensures r == s[..|r|]
  {
    if |s| > MaxBufferedStates then s[..|s| - 1] else s
  }

  /** Timestamps strictly decrease along the buffer. */
  ghost predicate NewestFirst(buffer: seq<GameState>) {
    forall i, j :: 0 <= i < j < |buffer| ==> buffer[i].timestamp > buffer[j].timestamp
  }

  /** A snapshot newer than everything in a newest-first buffer goes to the front,
      and the capped result is still newest-first. */
  lemma InOrderArrival(buffer: seq<GameState>, gameState: GameState)
    requires NewestFirst(buffer)
    requires buffer != [] ==> buffer[0].timestamp < gameState.timestamp
    ensures PushedSorted(buffer, gameState, CompareTimestamps) == [gameState] + buffer
    ensures NewestFirst(Capped([gameState] + buffer))
  {
    NewerThanAll(buffer, gameState);
    GreatestGoesFirst(buffer, gameState, CompareTimestamps);
    ConsNewestFirst(buffer, gameState);
    PrefixNewestFirst([gameState] + buffer, |Capped([gameState] + buffer)|);
  }

  /** A state newer than the first entry of a newest-first buffer is newer than
      every entry. */
  lemma NewerThanAll(buffer: seq<GameState>, gameState: GameState)
    requires NewestFirst(buffer)
    requires buffer != [] ==> buffer[0].timestamp < gameState.timestamp
    ensures forall j :: 0 <= j < |buffer| ==> CompareTimestamps(gameState, buffer[j]) > 0
  {
    forall j | 0 <= j < |buffer|
      ensures CompareTimestamps(gameState, buffer[j]) > 0
    {
      if j > 0 {
        assert buffer[0].timestamp > buffer[j].timestamp;
      }
    }
  }

  /** Putting a newer state in front of a newest-first buffer keeps it
      newest-first. */
  lemma ConsNewestFirst(buffer: seq<GameState>, gameState: GameState)
    requires NewestFirst(buffer)
    requires buffer != [] ==> buffer[0].timestamp < gameState.timestamp
    ensures NewestFirst([gameState] + buffer)
  {
    var pushed := [gameState] + buffer;
    forall i, j | 0 <= i < j < |pushed|
      ensures pushed[i].timestamp > pushed[j].timestamp
    {
      if i > 0 {
        assert pushed[i] == buffer[i - 1] && pushed[j] == buffer[j - 1];
      } else if j > 1 {
        assert buffer[0].timestamp > buffer[j - 1].timestamp;
      }
    }
  }

  /** Every prefix of a newest-first buffer is newest-first. */
  lemma PrefixNewestFirst(buffer: seq<GameState>, n: nat)
    requires NewestFirst(buffer) && n <= |buffer|
    ensures NewestFirst(buffer[..n])
  {
  }

  /** Snapshots 40, 30, 20, 10 ms and a late one at 25 ms: the search misses at
      the front (`-1`), so the splice puts the late one second to last, between
      20 and 10, and the buffer is no longer in timestamp order. */
  lemma LateArrivalIsMisplaced()
    ensures var buffer := [AtTime(40), AtTime(30), AtTime(20), AtTime(10)];
            && PushedSorted(buffer, AtTime(25), CompareTimestamps) == [AtTime(40), AtTime(30), AtTime(20), AtTime(25), AtTime(10)]
            && !NewestFirst(PushedSorted(buffer, AtTime(25), CompareTimestamps))
  {
    var buffer := [AtTime(40), AtTime(30), AtTime(20), AtTime(10)];
    assert SearchFrom(buffer, AtTime(25), CompareTimestamps, 0, 3) == SearchFrom(buffer, AtTime(25), CompareTimestamps, 0, 0);
    assert Search(buffer, AtTime(25), CompareTimestamps) == -1;
    var r := PushedSorted(buffer, AtTime(25), CompareTimestamps);
    assert r[2].timestamp < r[3].timestamp;
  }

  /** Snapshots 40, 30, 20, 10 ms and a late one at 15 ms: the search again
      misses with `-1`, and this time index 3 is where the late one belongs,
      so the buffer stays newest-first. */
  lemma LateArrivalInPlace()
    ensures var buffer := [AtTime(40), AtTime(30), AtTime(20), AtTime(10)];
            && PushedSorted(buffer, AtTime(15), CompareTimestamps) == [AtTime(40), AtTime(30), AtTime(20), AtTime(15), AtTime(10)]
            && NewestFirst(PushedSorted(buffer, AtTime(15), CompareTimestamps))
  {
    var buffer := [AtTime(40), AtTime(30), AtTime(20), AtTime(10)];
    assert SearchFrom(buffer, AtTime(15), CompareTimestamps, 0, 3) == SearchFrom(buffer, AtTime(15), CompareTimestamps, 0, 0);
    assert Search(buffer, AtTime(15), CompareTimestamps) == -1;
  }

  /** An otherwise empty state message with the given timestamp. */
  function AtTime(timestamp: int): (s: GameState)
    ensures s.timestamp == timestamp
  {
    EmptyGameState.(timestamp := timestamp)
  }

  /** The buffer's entries `i` and `i + 1` enclose the target time, newer one
      first: `buffer[i].timestamp >= target >= buffer[i + 1].timestamp`. The
      target is a fractional number of milliseconds; timestamps are whole. */
  predicate Brackets(buffer: seq<GameState>, i: int, target: real) {
    0 <= i && i + 1 < |buffer| && buffer[i].timestamp as real >= target && buffer[i + 1].timestamp as real <= target
  }

  /** `i` is the first pair of entries that encloses the target. */
  ghost predicate FirstBracket(buffer: seq<GameState>, target: real, i: int) {
    Brackets(buffer, i, target) && forall j :: 0 <= j < i ==> !Brackets(buffer, j, target)
  }

  /** `p` is the first entry no later than the target. */
  ghost predicate FirstNotAfter(buffer: seq<GameState>, target: real, p: int) {
    && 0 <= p < |buffer|
    && buffer[p].timestamp as real <= target
    && forall j :: 0 <= j < p ==> buffer[j].timestamp as real > target
  }

  /** Whenever the first entry no later than the target is not the buffer's first
      entry, the pair just before it is the first enclosing pair. */
  lemma FirstNotAfterBracket(buffer: seq<GameState>, target: real, p: int)
    requires FirstNotAfter(buffer, target, p) && p >= 1
    ensures FirstBracket(buffer, target, p - 1)
  {
  }

  /** The JavaScript numbers that arise in `getGameState`'s choice between the
      two enclosing states. */
  datatype JsNumber = Finite(value: real) | NaN

  /** `state - target`: subtracting a number from a plain object converts the
      object to a number first, and that conversion gives NaN, whatever the
      state and the target. */
  function ObjectMinus(state: GameState, target: real): (r: JsNumber)
    ensures r.NaN?
  {
    NaN
  }

  /** `Math.abs`: NaN stays NaN, a number becomes non-negative. */
  function Abs(x: JsNumber): (r: JsNumber)
    ensures x.NaN? <==> r.NaN?
    ensures x.Finite? ==> r.value >= 0.0 && (r.value == x.value || r.value == -x.value)
  {
    match x
    case Finite(v) => Finite(if v < 0.0 then -v else v)
    case NaN => NaN
  }

  /** `x > y`: false whenever either side is NaN. */
  function Greater(x: JsNumber, y: JsNumber): (r: bool)
    ensures x.NaN? || y.NaN? ==> !r
    ensures x.Finite? && y.Finite? ==> (r <==> x.value > y.value)
  {
    x.Finite? && y.Finite? && x.value > y.value
  }

  /** The comparison in `getGameState` never holds: its left side is the
      distance of a state object from the target, which is NaN, so the ternary
      always takes its second branch. */
  lemma ObjectDistanceNeverGreater(state: GameState, target: real, y: JsNumber)
    ensures !Greater(Abs(ObjectMinus(state, target)), y)
  {
  }

  /** The `keydown` object: the flags the client sends with every action. */
  class KeyDown {
    var w: bool
    var a: bool
    var s: bool
    var d: bool
    var click: bool

    constructor ()
      ensures !w && !a && !s && !d && !click
    {
      w, a, s, d, click := false, false, false, false, false;
    }

    /** The handler `keyHandlerFactory(isKeydownHandler)` returns, applied to an
        event with key code `code`: the flag of W, A, S or D is set to
        `isKeydownHandler`; any other code changes nothing. */
    method OnKey(isKeydownHandler: bool, code: int)
      modifies this
      ensures w == (if code == KeyCodeW then isKeydownHandler else old(w))
      ensures a == (if code == KeyCodeA then isKeydownHandler else old(a))
      ensures s == (if code == KeyCodeS then isKeydownHandler else old(s))
      ensures d == (if code == KeyCodeD then isKeydownHandler else old(d))
      ensures click == old(click)
    {
      if code == KeyCodeW { w := isKeydownHandler; }
      if code == KeyCodeA { a := isKeydownHandler; }
      if code == KeyCodeS { s := isKeydownHandler; }
      if code == KeyCodeD { d := isKeydownHandler; }
    }

    /** `onmousedown`: only `click` changes, to true. */
    method OnMouseDown()
      modifies this`click
      ensures click
    {
      click := true;
    }

    /** `onmouseup`: only `click` changes, to false. */
    method OnMouseUp()
      modifies this`click
      ensures !click
    {
      click := false;
    }
  }

  class Game {
    const gameStateBuffer: JsArray<GameState>
    const keydown: KeyDown
    /** The timestamp of the first state message received, once there is one. */
    var startTimestamp: Option<int>

    ghost predicate Valid()
      reads this, gameStateBuffer
    {
      |gameStateBuffer.elems| <= MaxBufferedStates
    }

    constructor ()
      ensures Valid() && fresh(gameStateBuffer) && fresh(keydown)
      ensures gameStateBuffer.elems == [] && startTimestamp == None
      ensures !keydown.w && !keydown.a && !keydown.s && !keydown.d && !keydown.click
    {
      gameStateBuffer := new JsArray();
      keydown := new KeyDown();
      startTimestamp := None;
    }

    /** `insertGameState`: `pushSorted` on the timestamps, then a `pop` if the
        buffer has grown past the cap. A state newer than everything in a
        newest-first buffer is put at the front and the oldest one is dropped
        when the cap is exceeded. */
    method InsertGameState(gameState: GameState)
      modifies gameStateBuffer
      ensures gameStateBuffer.elems == Capped(PushedSorted(old(gameStateBuffer.elems), gameState, CompareTimestamps))
      ensures old(Valid()) ==> Valid()
      ensures NewestFirst(old(gameStateBuffer.elems)) &&
              (old(gameStateBuffer.elems) != [] ==> old(gameStateBuffer.elems)[0].timestamp < gameState.timestamp) ==>
                gameStateBuffer.elems == Capped([gameState] + old(gameStateBuffer.elems)) &&
                NewestFirst(gameStateBuffer.elems)
    {
      ghost var before := gameStateBuffer.elems;
      var _ := gameStateBuffer.PushSorted(gameState, CompareTimestamps);
      ghost var pushed := gameStateBuffer.elems;
      assert pushed == PushedSorted(before, gameState, CompareTimestamps);
      if |gameStateBuffer.elems| > MaxBufferedStates {
        var _ := gameStateBuffer.Pop();
      }
      assert gameStateBuffer.elems == Capped(pushed);
      if NewestFirst(before) && (before != [] ==> before[0].timestamp < gameState.timestamp) {
        InOrderArrival(before, gameState);
      }
    }

    /** The `onmessage` handler: buffers the state and remembers the first
        timestamp seen. */
    method OnMessage(data: GameState)
      modifies this, gameStateBuffer
      ensures gameStateBuffer.elems == Capped(PushedSorted(old(gameStateBuffer.elems), data, CompareTimestamps))
      ensures startTimestamp == if old(startTimestamp).None? then Some(data.timestamp) else old(startTimestamp)
      ensures old(Valid()) ==> Valid()
    {
      InsertGameState(data);
      if startTimestamp.None? {
        startTimestamp := Some(data.timestamp);
      }
    }

    /**
     * `getGameState` for a given target time: the second entry of the first
     * pair that encloses the target, the one whose timestamp is at most the
     * target (the NaN comparison never picks the first), or the buffer's
     * first entry if no pair encloses it or the picked entry has timestamp 0;
     * `undefined` on an empty buffer. On a buffer whose first entry is later
     * than the target, this is the first entry no later than the target,
     * unless that entry's timestamp is 0, in which case `buffer[0]` is
     * returned.
     */
    method GetGameState(target: real) returns (r: Option<GameState>)
      ensures var b := gameStateBuffer.elems;
        && (b == [] ==> r == None)
        && (forall i :: FirstBracket(b, target, i) && b[i + 1].timestamp != 0 ==> r == Some(b[i + 1]))
        && ((forall i :: FirstBracket(b, target, i) ==> b[i + 1].timestamp == 0) && b != [] ==> r == Some(b[0]))
      ensures var b := gameStateBuffer.elems;
        forall p :: FirstNotAfter(b, target, p) && p >= 1 && b[p].timestamp != 0 ==> r == Some(b[p])
    {
      var gameState := EmptyGameState;
      var buffer := gameStateBuffer.elems;
      var i := 0;
      while i < |buffer| - 1
        invariant 0 <= i
        invariant forall j :: 0 <= j < i ==> !Brackets(buffer, j, target)
        invariant gameState == EmptyGameState
      {
        if Brackets(buffer, i, target) {
          var first, second := buffer[i], buffer[i + 1];
          gameState := if Greater(Abs(ObjectMinus(first, target)), Abs(ObjectMinus(second, target)))
                       then first else second;
          assert FirstBracket(buffer, target, i);
          break;
        }
        i := i + 1;
      }
      if gameState.timestamp == 0 {
        r := if |buffer| > 0 then Some(buffer[0]) else None;
      } else {
        r := Some(gameState);
      }
      forall p | FirstNotAfter(buffer, target, p) && p >= 1
        ensures FirstBracket(buffer, target, p - 1)
      {
        FirstNotAfterBracket(buffer, target, p);
      }
    }
  }
}
