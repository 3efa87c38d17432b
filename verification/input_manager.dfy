/**
 * The input manager's state machine: key and mouse-button arrays for this
 * frame and the last one, the edge-detecting queries, the window-system
 * callbacks that write the arrays, the per-frame copy, and the mapping to
 * the camera's input state. Key and action codes are the window system's
 * integers, so out-of-range values can be passed and are handled.
 */
module InputManager {

  const KeyCount := 512
  const ButtonCount := 8

  /** Window-system action codes. */
  const Release := 0
  const Press := 1
  const Repeat := 2

  /** Key codes the camera reads. */
  const KeyW := 87
  const KeyA := 65
  const KeyS := 83
  const KeyD := 68
  const KeyQ := 81
  const KeyE := 69
  const KeySpace := 32
  const KeyLeftShift := 340

  const ButtonLeft := 0
  const ButtonRight := 1
  const ButtonMiddle := 2

  datatype Input = Input(
    keys: seq<bool>,
    keysLastFrame: seq<bool>,
    buttons: seq<bool>,
    buttonsLastFrame: seq<bool>,
    mouseX: real,
    mouseY: real,
    scrollY: real,
    mouseLocked: bool,
    firstMouse: bool)

  ghost predicate Valid(s: Input) {
    |s.keys| == KeyCount && |s.keysLastFrame| == KeyCount
    && |s.buttons| == ButtonCount && |s.buttonsLastFrame| == ButtonCount
  }

  function AllUp(n: nat): (r: seq<bool>)
    ensures |r| == n && forall k :: 0 <= k < n ==> !r[k]
  {
    seq(n, _ => false)
  }

  /** The singleton before any event: nothing held, cursor and scroll at zero, cursor free. */
  const Initial := Input(AllUp(KeyCount), AllUp(KeyCount), AllUp(ButtonCount), AllUp(ButtonCount),
                         0.0, 0.0, 0.0, false, true)

  lemma InitialValid()
    ensures Valid(Initial)
    ensures forall k: int :: !IsKeyPressed(Initial, k) && !IsKeyJustPressed(Initial, k) && !IsKeyReleased(Initial, k)
  {
  }

  // ---- Queries --------------------------------------------------------------

  predicate KeyInRange(key: int) {
    0 <= key < KeyCount
  }

  predicate ButtonInRange(button: int) {
    0 <= button < ButtonCount
  }

  /** Out-of-range keys read as up. */
  predicate IsKeyPressed(s: Input, key: int)
    requires Valid(s)
  {
    KeyInRange(key) && s.keys[key]
  }

  /** Down now and up last frame. */
  predicate IsKeyJustPressed(s: Input, key: int)
    requires Valid(s)
  {
    KeyInRange(key) && s.keys[key] && !s.keysLastFrame[key]
  }

  /** Up now and down last frame. */
  predicate IsKeyReleased(s: Input, key: int)
    requires Valid(s)
  {
    KeyInRange(key) && !s.keys[key] && s.keysLastFrame[key]
  }

  predicate IsMouseButtonPressed(s: Input, button: int)
    requires Valid(s)
  {
    ButtonInRange(button) && s.buttons[button]
  }

  predicate IsMouseButtonJustPressed(s: Input, button: int)
    requires Valid(s)
  {
    ButtonInRange(button) && s.buttons[button] && !s.buttonsLastFrame[button]
  }

  /**
   * Just-pressed and released are the two edges of one key: never both,
   * each implies the current state, and a key with no edge is as it was.
   */
  lemma KeyEdges(s: Input, key: int)
    requires Valid(s)
    ensures !(IsKeyJustPressed(s, key) && IsKeyReleased(s, key))
    ensures IsKeyJustPressed(s, key) ==> IsKeyPressed(s, key)
    ensures IsKeyReleased(s, key) ==> !IsKeyPressed(s, key)
    ensures KeyInRange(key) && !IsKeyJustPressed(s, key) && !IsKeyReleased(s, key) ==>
              s.keys[key] == s.keysLastFrame[key]
    ensures !KeyInRange(key) ==> !IsKeyPressed(s, key) && !IsKeyJustPressed(s, key) && !IsKeyReleased(s, key)
  {
  }

  lemma ButtonEdges(s: Input, button: int)
    requires Valid(s)
    ensures IsMouseButtonJustPressed(s, button) ==> IsMouseButtonPressed(s, button)
    ensures !ButtonInRange(button) ==> !IsMouseButtonPressed(s, button) && !IsMouseButtonJustPressed(s, button)
  {
  }

  // ---- Callbacks ------------------------------------------------------------

  /** The state a Press or Release writes; any other action (Repeat included) keeps `held`. */
  function ApplyAction(held: bool, action: int): (r: bool)
    ensures action == Press ==> r
    ensures action == Release ==> !r
    ensures action != Press && action != Release ==> r == held
  {
    if action == Press then true else if action == Release then false else held
  }

  /** KeyCallback: only an in-range key is written, and only by Press or Release. */
  function KeyCallback(s: Input, key: int, action: int): (r: Input)
    requires Valid(s)
    ensures Valid(r)
    ensures forall k :: 0 <= k < KeyCount && k != key ==> r.keys[k] == s.keys[k]
    ensures KeyInRange(key) ==> r.keys[key] == ApplyAction(s.keys[key], action)
    ensures !KeyInRange(key) ==> r == s
    ensures r.keysLastFrame == s.keysLastFrame && r.buttons == s.buttons
  {
    if KeyInRange(key) then s.(keys := s.keys[key := ApplyAction(s.keys[key], action)]) else s
  }

  /** MouseButtonCallback: the same rule on the eight buttons. */
  function MouseButtonCallback(s: Input, button: int, action: int): (r: Input)
    requires Valid(s)
    ensures Valid(r)
    ensures forall b :: 0 <= b < ButtonCount && b != button ==> r.buttons[b] == s.buttons[b]
    ensures ButtonInRange(button) ==> r.buttons[button] == ApplyAction(s.buttons[button], action)
    ensures !ButtonInRange(button) ==> r == s
    ensures r.keys == s.keys && r.buttonsLastFrame == s.buttonsLastFrame
  {
    if ButtonInRange(button) then s.(buttons := s.buttons[button := ApplyAction(s.buttons[button], action)]) else s
  }

  /** CursorPosCallback: the position is replaced. */
  function CursorPosCallback(s: Input, x: real, y: real): (r: Input)
    ensures r.mouseX == x && r.mouseY == y
    ensures r.keys == s.keys && r.buttons == s.buttons && r.scrollY == s.scrollY
  {
    s.(mouseX := x, mouseY := y)
  }

  /** ScrollCallback: the latest vertical offset replaces the stored one; nothing accumulates. */
  function ScrollCallback(s: Input, yOffset: real): (r: Input)
    ensures r.scrollY == yOffset
    ensures r.keys == s.keys && r.buttons == s.buttons && r.mouseX == s.mouseX && r.mouseY == s.mouseY
  {
    s.(scrollY := yOffset)
  }

  /** Two scroll events in one frame: only the second survives. */
  lemma ScrollOverwrites(s: Input, first: real, second: real)
    ensures ScrollCallback(ScrollCallback(s, first), second).scrollY == second
    ensures ScrollCallback(ScrollCallback(s, first), second) == ScrollCallback(s, second)
  {
  }

  /** SetMouseLocked: the lock changes and the next locked frame starts from scratch. */
  function SetMouseLocked(s: Input, locked: bool): (r: Input)
    ensures r.mouseLocked == locked && r.firstMouse
    ensures r.keys == s.keys && r.buttons == s.buttons
  {
    s.(mouseLocked := locked, firstMouse := true)
  }

  // ---- Per-frame copy -------------------------------------------------------

  /** Update: this frame's keys and buttons become last frame's. */
  function Update(s: Input): (r: Input)
    requires Valid(s)
    ensures Valid(r)
    ensures r.keys == s.keys && r.buttons == s.buttons
    ensures forall k :: 0 <= k < KeyCount ==> r.keysLastFrame[k] == s.keys[k]
    ensures forall b :: 0 <= b < ButtonCount ==> r.buttonsLastFrame[b] == s.buttons[b]
  {
    s.(keysLastFrame := s.keys, buttonsLastFrame := s.buttons)
  }

  /** Straight after Update no key or button has an edge, and every held key is still held. */
  lemma UpdateClearsEdges(s: Input, key: int, button: int)
    requires Valid(s)
    ensures !IsKeyJustPressed(Update(s), key) && !IsKeyReleased(Update(s), key)
    ensures !IsMouseButtonJustPressed(Update(s), button)
    ensures IsKeyPressed(Update(s), key) == IsKeyPressed(s, key)
  {
  }

  /**
   * One frame of edge detection: a key up at Update and pressed before the
   * next query is just-pressed; released after being held it is released.
   */
  lemma PressAfterUpdateIsJustPressed(s: Input, key: int)
    requires Valid(s) && KeyInRange(key)
    ensures !s.keys[key] ==> IsKeyJustPressed(KeyCallback(Update(s), key, Press), key)
    ensures s.keys[key] ==> IsKeyReleased(KeyCallback(Update(s), key, Release), key)
    ensures !IsKeyJustPressed(KeyCallback(Update(s), key, Repeat), key)
  {
  }

  // ---- Camera input ---------------------------------------------------------

  /** The camera's input record, without the mouse delta. */
  datatype CameraInput = CameraInput(
    forward: bool, backward: bool, left: bool, right: bool, up: bool, down: bool,
    mouseX: real, mouseY: real, mouseScroll: real,
    mouseLeft: bool, mouseRight: bool, mouseMiddle: bool)

  /**
   * GetCameraInputState. The source pairs D with left and A with right;
   * the model keeps that pairing.
   */
  function GetCameraInputState(s: Input): (c: CameraInput)
    requires Valid(s)
    ensures c.forward == s.keys[KeyW] && c.backward == s.keys[KeyS]
    ensures c.left == s.keys[KeyD] && c.right == s.keys[KeyA]
    ensures c.up == (s.keys[KeySpace] || s.keys[KeyE])
    ensures c.down == (s.keys[KeyLeftShift] || s.keys[KeyQ])
    ensures c.mouseLeft == s.buttons[ButtonLeft] && c.mouseRight == s.buttons[ButtonRight]
    ensures c.mouseMiddle == s.buttons[ButtonMiddle]
    ensures c.mouseX == s.mouseX && c.mouseY == s.mouseY && c.mouseScroll == s.scrollY
  {
    CameraInput(
      IsKeyPressed(s, KeyW), IsKeyPressed(s, KeyS),
      IsKeyPressed(s, KeyD), IsKeyPressed(s, KeyA),
      IsKeyPressed(s, KeySpace) || IsKeyPressed(s, KeyE),
      IsKeyPressed(s, KeyLeftShift) || IsKeyPressed(s, KeyQ),
      s.mouseX, s.mouseY, s.scrollY,
      IsMouseButtonPressed(s, ButtonLeft), IsMouseButtonPressed(s, ButtonRight),
      IsMouseButtonPressed(s, ButtonMiddle))
  }

  /** Pressing D, not A, moves the camera left; either Space or E lifts it. */
  lemma CameraMapping(s: Input)
    requires Valid(s) && !s.keys[KeyA] && !s.keys[KeyD] && !s.keys[KeySpace] && !s.keys[KeyE]
    ensures GetCameraInputState(KeyCallback(s, KeyD, Press)).left
    ensures !GetCameraInputState(KeyCallback(s, KeyD, Press)).right
    ensures GetCameraInputState(KeyCallback(s, KeyE, Press)).up
    ensures !GetCameraInputState(s).up
  {
  }
}
