/** The keyboard and mouse state the input layer tracks between simulation
    frames (branches/neroco/source/input/IOState.cpp). IOState.h is not part
    of this model: the mouse buttons are taken as left 0, right 1 and middle
    2 with MOUSE_BUTTONS_COUNT 3, and the key constants follow Irrlicht's key
    codes (KEY_KEY_CODES_COUNT 0xFF, KEY_SHIFT 0x10, KEY_CONTROL 0x11). */
module IOStates {

  const KeyCount := 0xFF
  const KeyShift := 0x10
  const KeyControl := 0x11
  const ButtonCount := 3
  const LeftButton := 0
  const RightButton := 1
  const MiddleButton := 2

  /** A key code below KEY_KEY_CODES_COUNT, as the handlers assert. */
  type Key = k: nat | k < KeyCount
  type Button = b: nat | b < ButtonCount

  datatype TrackingSource = UserInput | OtherSource

  /** The mouse event kinds the handler distinguishes; Moved stands for
      every other kind, which only moves the pointer. */
  datatype MouseAction = Wheel | LeftDown | RightDown | MiddleDown | LeftUp | RightUp | MiddleUp | Moved

  datatype Event =
    | KeyInput(key: Key, shift: bool, control: bool, pressedDown: bool)
    | MouseInput(x: int, y: int, action: MouseAction, wheel: real)
    | OtherInput

  /** Everything an IOState holds, the four bit arrays as sequences. */
  datatype Snapshot = Snapshot(
    curKeys: seq<bool>, prevKeys: seq<bool>, curMouse: seq<bool>, prevMouse: seq<bool>,
    posX: int, posY: int, deltaX: int, deltaY: int, scrollVal: real, scrollDelta: real,
    shift: bool, ctrl: bool, source: TrackingSource)

  predicate WellSized(s: Snapshot)
  {
    |s.curKeys| == KeyCount && |s.prevKeys| == KeyCount
    && |s.curMouse| == ButtonCount && |s.prevMouse| == ButtonCount
  }

  function IsModifierKey(k: Key): (r: bool)
    ensures r <==> k in {KeyShift, KeyControl}
  {
    k == KeyShift || k == KeyControl
  }

  /** The button and new state a mouse action carries, if any. */
  function ButtonChange(a: MouseAction): (r: (bool, Button, bool))
    ensures r.0 <==> a !in {Wheel, Moved}
    ensures r.0 ==> (r.2 <==> a in {LeftDown, RightDown, MiddleDown})
  {
    match a
    case LeftDown => (true, LeftButton, true)
    case RightDown => (true, RightButton, true)
    case MiddleDown => (true, MiddleButton, true)
    case LeftUp => (true, LeftButton, false)
    case RightUp => (true, RightButton, false)
    case MiddleUp => (true, MiddleButton, false)
    case _ => (false, 0, false)
  }

  // The state after each operation, the specification the methods meet.

  function KeyStep(s: Snapshot, key: Key, shift: bool, control: bool, down: bool): Snapshot
    requires WellSized(s)
  {
    if s.source != UserInput then s
    else if IsModifierKey(key) then s.(shift := shift, ctrl := control)
    else s.(shift := shift, ctrl := control, curKeys := s.curKeys[key := down])
  }

  function ButtonStep(s: Snapshot, b: Button, down: bool): Snapshot
    requires WellSized(s)
  {
    s.(prevMouse := s.prevMouse[b := s.curMouse[b]], curMouse := s.curMouse[b := down])
  }

  function MouseStep(s: Snapshot, x: int, y: int, a: MouseAction, wheel: real): Snapshot
    requires WellSized(s)
  {
    if s.source != UserInput then s
    else
      var moved := s.(deltaX := x - s.posX, deltaY := y - s.posY, posX := x, posY := y);
      var change := ButtonChange(a);
      if a == Wheel then moved.(scrollVal := s.scrollVal + wheel, scrollDelta := wheel)
      else if change.0 then ButtonStep(moved, change.1, change.2)
      else moved
  }

  function EventStep(s: Snapshot, e: Event): Snapshot
    requires WellSized(s)
  {
    match e
    case KeyInput(k, sh, c, d) => KeyStep(s, k, sh, c, d)
    case MouseInput(x, y, a, w) => MouseStep(s, x, y, a, w)
    case OtherInput => s
  }

  /** The next frame starts with the keys as "previous", no key down, no
      pointer or wheel delta, and every button's previous state equal to its
      current one: a press becomes a hold and a release becomes nothing. */
  function NextFrame(s: Snapshot): Snapshot
    requires WellSized(s)
  {
    s.(prevKeys := s.curKeys, curKeys := seq(KeyCount, _ => false),
       deltaX := 0, deltaY := 0, scrollDelta := 0.0, prevMouse := s.curMouse)
  }

  predicate KeyPressed(s: Snapshot, k: Key)
    requires WellSized(s)
  {
    s.curKeys[k] && !s.prevKeys[k]
  }

  predicate KeyReleased(s: Snapshot, k: Key)
    requires WellSized(s)
  {
    !s.curKeys[k] && s.prevKeys[k]
  }

  predicate ButtonPressed(s: Snapshot, b: Button)
    requires WellSized(s)
  {
    s.curMouse[b] && !s.prevMouse[b]
  }

  predicate ButtonReleased(s: Snapshot, b: Button)
    requires WellSized(s)
  {
    !s.curMouse[b] && s.prevMouse[b]
  }

  class IOState {
    var curKeys: array<bool>
    var prevKeys: array<bool>
    const curMouse: array<bool>
    const prevMouse: array<bool>
    var posX: int
    var posY: int
    var deltaX: int
    var deltaY: int
    var scrollVal: real
    var scrollDelta: real
    var shiftPressed: bool
    var ctrlPressed: bool
    var source: TrackingSource

    /** The key and button arrays keep their sizes and the current and
        previous buffers are distinct, so swapping them is meaningful. */
    ghost predicate Valid()
      reads this
    {
      curKeys.Length == KeyCount && prevKeys.Length == KeyCount && curKeys != prevKeys
      && curMouse.Length == ButtonCount && prevMouse.Length == ButtonCount && curMouse != prevMouse
    }

    /** The two key buffers are the ones the object had before the call;
        the button buffers never change. */
    twostate predicate SameBuffers()
      reads this
    {
      curKeys == old(curKeys) && prevKeys == old(prevKeys)
    }

    ghost function View(): (s: Snapshot)
      requires Valid()
      reads this, curKeys, prevKeys, curMouse, prevMouse
      ensures WellSized(s)
    {
      Snapshot(curKeys[..], prevKeys[..], curMouse[..], prevMouse[..],
               posX, posY, deltaX, deltaY, scrollVal, scrollDelta,
               shiftPressed, ctrlPressed, source)
    }

    /** Every key and button starts up, the pointer at the origin, no
        modifier down, and input taken from the user. */
    constructor()
      ensures Valid() && fresh(curKeys) && fresh(prevKeys) && fresh(curMouse) && fresh(prevMouse)
      ensures View() == Snapshot(seq(KeyCount, _ => false), seq(KeyCount, _ => false),
                                 seq(ButtonCount, _ => false), seq(ButtonCount, _ => false),
                                 0, 0, 0, 0, 0.0, 0.0, false, false, UserInput)
    {
      curKeys := new bool[KeyCount](_ => false);
      prevKeys := new bool[KeyCount](_ => false);
      curMouse := new bool[ButtonCount](_ => false);
      prevMouse := new bool[ButtonCount](_ => false);
      posX, posY, deltaX, deltaY := 0, 0, 0, 0;
      scrollVal, scrollDelta := 0.0, 0.0;
      shiftPressed, ctrlPressed := false, false;
      source := UserInput;
    }

    method SetTrackingSource(src: TrackingSource)
      requires Valid()
      modifies this
      ensures Valid() && View() == old(View()).(source := src) && SameBuffers()
    {
      source := src;
    }

    function IsKeyHeld(k: Key): bool
      requires Valid()
      reads this, curKeys
    {
      curKeys[k]
    }

    function WasKeyPressedLastFrame(k: Key): (r: bool)
      requires Valid()
      reads this, curKeys, prevKeys
      ensures r <==> KeyPressed(View(), k)
    {
      curKeys[k] && !prevKeys[k]
    }

    function WasKeyReleasedLastFrame(k: Key): (r: bool)
      requires Valid()
      reads this, curKeys, prevKeys
      ensures r <==> KeyReleased(View(), k)
    {
      !curKeys[k] && prevKeys[k]
    }

    function IsShiftDown(): bool
      reads this
    {
      shiftPressed
    }

    function IsCtrlDown(): bool
      reads this
    {
      ctrlPressed
    }

    function IsMouseButtonHeld(b: Button): bool
      requires Valid()
      reads this, curMouse
    {
      curMouse[b]
    }

    function WasMouseButtonPressedLastFrame(b: Button): (r: bool)
      requires Valid()
      reads this, curMouse, prevMouse
      ensures r <==> ButtonPressed(View(), b)
    {
      curMouse[b] && !prevMouse[b]
    }

    function WasMouseButtonReleasedLastFrame(b: Button): (r: bool)
      requires Valid()
      reads this, curMouse, prevMouse
      ensures r <==> ButtonReleased(View(), b)
    {
      !curMouse[b] && prevMouse[b]
    }

    function GetMousePosition(): (int, int)
      reads this
    {
      (posX, posY)
    }

    function GetMouseDelta(): (int, int)
      reads this
    {
      (deltaX, deltaY)
    }

    /** Records the modifiers, and the key's new state unless it is itself
        a modifier; ignored unless input comes from the user. */
    method HandleIrrKeyboardEvent(key: Key, shift: bool, control: bool, down: bool)
      requires Valid()
      modifies this, curKeys
      ensures Valid() && View() == KeyStep(old(View()), key, shift, control, down) && SameBuffers()
    {
      if source == UserInput {
        shiftPressed := shift;
        ctrlPressed := control;
        if IsModifierKey(key) {
          return;
        }
        curKeys[key] := down;
      }
    }

    /** Moves the button's current state to its previous state and stores
        the new one. */
    method HandleMouseButton(b: Button, down: bool)
      requires Valid()
      modifies prevMouse, curMouse
      ensures Valid() && View() == ButtonStep(old(View()), b, down)
    {
      prevMouse[b] := curMouse[b];
      curMouse[b] := down;
    }

    /** Updates the pointer position and its delta, then the wheel or the
        button the event names; ignored unless input comes from the user. */
    method HandleIrrMouseEvent(x: int, y: int, a: MouseAction, wheel: real)
      requires Valid()
      modifies this, curMouse, prevMouse
      ensures Valid() && View() == MouseStep(old(View()), x, y, a, wheel) && SameBuffers()
    {
      if source == UserInput {
        MovePointer(x, y);
        var change := ButtonChange(a);
        if a == Wheel {
          Scroll(wheel);
        } else if change.0 {
          HandleMouseButton(change.1, change.2);
        }
      }
    }

    /** The pointer moves to (x, y), its delta the displacement. */
    method MovePointer(x: int, y: int)
      requires Valid()
      modifies this
      ensures Valid() && SameBuffers()
      ensures View() == old(View()).(deltaX := x - old(posX), deltaY := y - old(posY), posX := x, posY := y)
    {
      deltaX, deltaY, posX, posY := x - posX, y - posY, x, y;
    }

    /** The wheel turns by wheel. */
    method Scroll(wheel: real)
      requires Valid()
      modifies this
      ensures Valid() && SameBuffers()
      ensures View() == old(View()).(scrollVal := old(scrollVal) + wheel, scrollDelta := wheel)
    {
      scrollVal, scrollDelta := scrollVal + wheel, wheel;
    }

    method OnIrrEvent(e: Event)
      requires Valid()
      modifies this, curKeys, curMouse, prevMouse
      ensures Valid() && View() == EventStep(old(View()), e) && SameBuffers()
    {
      match e {
        case KeyInput(k, sh, c, d) => HandleIrrKeyboardEvent(k, sh, c, d);
        case MouseInput(x, y, a, w) => HandleIrrMouseEvent(x, y, a, w);
        case OtherInput =>
      }
    }

    /** Swaps the key buffers and clears the new current one, zeroes the
        deltas, and settles every button's previous state. */
    method PrepareForNextSimFrame()
      requires Valid()
      modifies this, curKeys, prevKeys, prevMouse
      ensures Valid() && View() == NextFrame(old(View()))
      ensures curKeys == old(prevKeys) && prevKeys == old(curKeys)
    {
      var cleared, kept := prevKeys, curKeys;
      Fill(cleared, false);
      curKeys, prevKeys := cleared, kept;
      deltaX, deltaY := 0, 0;
      scrollDelta := 0.0;
      var i := 0;
      while i < curMouse.Length
        modifies prevMouse
        invariant 0 <= i <= curMouse.Length
        invariant forall j :: 0 <= j < i ==> prevMouse[j] == curMouse[j]
        invariant forall j :: i <= j < prevMouse.Length ==> prevMouse[j] == old(prevMouse[j])
      {
        if !prevMouse[i] && curMouse[i] {
          prevMouse[i] := true;
        }
        if prevMouse[i] && !curMouse[i] {
          prevMouse[i] := false;
        }
        i := i + 1;
      }
      assert prevMouse[..] == curMouse[..];
    }
  }

  /** std::fill over a whole array. */
  method Fill(a: array<bool>, v: bool)
    modifies a
    ensures a[..] == seq(a.Length, _ => v)
  {
    var i := 0;
    while i < a.Length
      invariant 0 <= i <= a.Length
      invariant forall j :: 0 <= j < i ==> a[j] == v
    {
      a[i] := v;
      i := i + 1;
    }
  }

  /** A key event changes the key array exactly at a non-modifier key; a
      modifier key only updates the shift and control flags. */
  lemma KeyEventTouchesOnlyItsKey(s: Snapshot, key: Key, shift: bool, control: bool, down: bool, k: Key)
    requires WellSized(s) && s.source == UserInput
    ensures var t := KeyStep(s, key, shift, control, down);
            t.shift == shift && t.ctrl == control
            && t.curKeys[k] == (if k == key && !IsModifierKey(key) then down else s.curKeys[k])
            && t.prevKeys == s.prevKeys && t.curMouse == s.curMouse
  {
  }

  /** The pointer delta of a mouse event is the new position minus the old. */
  lemma MouseDeltaIsDisplacement(s: Snapshot, x: int, y: int, a: MouseAction, w: real)
    requires WellSized(s) && s.source == UserInput
    ensures var t := MouseStep(s, x, y, a, w);
            t.posX == x && t.posY == y && t.posX - s.posX == t.deltaX && t.posY - s.posY == t.deltaY
  {
  }

  /** A button event makes that button pressed (or released) exactly when
      its current state changes. */
  lemma ButtonEdges(s: Snapshot, b: Button, down: bool)
    requires WellSized(s)
    ensures ButtonPressed(ButtonStep(s, b, down), b) <==> down && !s.curMouse[b]
    ensures ButtonReleased(ButtonStep(s, b, down), b) <==> !down && s.curMouse[b]
  {
  }

  /** After the frame boundary no key is down, a key was released exactly
      when it was down, none was pressed, and every button that was pressed
      is held while every button that was released is neither. */
  lemma NextFrameEdges(s: Snapshot, k: Key, b: Button)
    requires WellSized(s)
    ensures !KeyPressed(NextFrame(s), k)
    ensures KeyReleased(NextFrame(s), k) <==> s.curKeys[k]
    ensures !ButtonPressed(NextFrame(s), b) && !ButtonReleased(NextFrame(s), b)
    ensures ButtonPressed(s, b) ==> NextFrame(s).curMouse[b] && NextFrame(s).prevMouse[b]
    ensures ButtonReleased(s, b) ==> !NextFrame(s).curMouse[b] && !NextFrame(s).prevMouse[b]
  {
  }

  /** A key pressed in one frame reads as pressed, and after the frame
      boundary (no repeat event arriving) as released. */
  method KeyAcrossFrames(k: Key) returns (pressed: bool, releasedNext: bool, pressedNext: bool)
    ensures pressed == !IsModifierKey(k)
    ensures releasedNext == !IsModifierKey(k) && !pressedNext
  {
    var io := new IOState();
    io.OnIrrEvent(KeyInput(k, false, false, true));
    pressed := io.WasKeyPressedLastFrame(k);
    io.PrepareForNextSimFrame();
    releasedNext := io.WasKeyReleasedLastFrame(k);
    pressedNext := io.WasKeyPressedLastFrame(k);
  }

  /** Two pointer events report the displacement between them, and the
      frame boundary zeroes it. */
  method PointerAcrossFrames(x0: int, y0: int, x1: int, y1: int)
    returns (dx: int, dy: int, settled: (int, int))
    ensures dx == x1 - x0 && dy == y1 - y0 && settled == (0, 0)
  {
    var io := new IOState();
    io.OnIrrEvent(MouseInput(x0, y0, Moved, 0.0));
    io.OnIrrEvent(MouseInput(x1, y1, Moved, 0.0));
    var d := io.GetMouseDelta();
    dx, dy := d.0, d.1;
    io.PrepareForNextSimFrame();
    settled := io.GetMouseDelta();
  }

  /** A left click is a press in its frame and a hold in the next. */
  method ClickBecomesHold() returns (pressed: bool, pressedNext: bool, heldNext: bool)
    ensures pressed && !pressedNext && heldNext
  {
    var io := new IOState();
    io.OnIrrEvent(MouseInput(0, 0, LeftDown, 0.0));
    pressed := io.WasMouseButtonPressedLastFrame(LeftButton);
    io.PrepareForNextSimFrame();
    pressedNext := io.WasMouseButtonPressedLastFrame(LeftButton);
    heldNext := io.IsMouseButtonHeld(LeftButton);
  }

  /** Events are ignored while input comes from another source. */
  method OtherSourceIgnoresInput(e: Event) returns (held: bool, delta: (int, int))
    ensures !held && delta == (0, 0)
  {
    var io := new IOState();
    io.SetTrackingSource(OtherSource);
    io.OnIrrEvent(e);
    held := io.IsMouseButtonHeld(LeftButton) || io.IsKeyHeld(0x41);
    delta := io.GetMouseDelta();
  }
}
