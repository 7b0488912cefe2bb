/** MouseSingleton (MouseSingleton.h/.cpp): position, motion delta, wheel
    total and a 6-bit button set driven by window messages. The decoded raw
    input packet (the answer of GetRawInputData) is a parameter. */
module Mouse {
  import opened Wrappers

  const ButtonBound: nat := 6

  /** EMouseButtons. */
  const MouseLeft: nat := 0
  const MouseRight: nat := 1
  const MouseMiddle: nat := 2
  const MouseWheel: nat := 3
  const MouseX1: nat := 4
  const MouseX2: nat := 5

  const WmInput: nat := 0x00FF
  const WmMouseMove: nat := 0x0200
  const WmLButtonDown: nat := 0x0201
  const WmLButtonUp: nat := 0x0202
  const WmRButtonDown: nat := 0x0204
  const WmRButtonUp: nat := 0x0205
  const WmMButtonDown: nat := 0x0207
  const WmMButtonUp: nat := 0x0208
  const WmMouseWheel: nat := 0x020A
  const WmXButtonDown: nat := 0x020B
  const WmXButtonUp: nat := 0x020C

  const WheelDeltaUnit: int := 120
  const XButton1: nat := 1
  const XButton2: nat := 2

  /** The relative motion of a raw mouse packet. A packet that is empty,
      short, or from another device type is passed as None (an
      `Option<RawMouse>`). */
  datatype RawMouse = RawMouse(dx: int, dy: int)

  /** MOUSE_STATE_DESC plus the button set. */
  datatype MouseState = MouseState(x: int, y: int, deltaX: int, deltaY: int, wheelDelta: int, buttons: seq<bool>)

  /** A 16-bit word read as a signed short. */
  function AsShort(w: int): (r: int)
    requires 0 <= w < 0x1_0000
    ensures -0x8000 <= r < 0x8000
    ensures (r - w) % 0x1_0000 == 0
  {
    if w >= 0x8000 then w - 0x1_0000 else w
  }

  function LoWord(v: int): (r: int)
    ensures 0 <= r < 0x1_0000
  {
    v % 0x1_0000
  }

  function HiWord(v: int): (r: int)
    ensures 0 <= r < 0x1_0000
  {
    (v / 0x1_0000) % 0x1_0000
  }

  /** C++ integer division, truncating toward zero. */
  function TruncDiv(a: int, b: int): (q: int)
    requires b > 0
    ensures 0 <= a ==> 0 <= a - q * b < b
    ensures a < 0 ==> -b < a - q * b <= 0
  {
    if a >= 0 then a / b else -((-a) / b)
  }

  function SetButton(buttons: seq<bool>, index: nat, down: bool): (r: seq<bool>)
    requires |buttons| == ButtonBound && index < ButtonBound
    ensures |r| == ButtonBound && r[index] == down
    ensures forall k :: 0 <= k < ButtonBound && k != index ==> r[k] == buttons[k]
  {
    buttons[index := down]
  }

  /** The X-button messages: the XBUTTON1 flag drives MOUSE_X1, the
      XBUTTON2 flag MOUSE_X2, each on its own; every other bit is kept. */
  function SetXButtons(buttons: seq<bool>, flags: int, down: bool): (r: seq<bool>)
    requires |buttons| == ButtonBound && 0 <= flags < 0x1_0000
    ensures |r| == ButtonBound
    ensures r[MouseX1] == (if flags % 2 == 1 then down else buttons[MouseX1])
    ensures r[MouseX2] == (if (flags / 2) % 2 == 1 then down else buttons[MouseX2])
    ensures forall k :: 0 <= k < MouseX1 ==> r[k] == buttons[k]
  {
    var b1 := if flags % 2 == 1 then SetButton(buttons, MouseX1, down) else buttons;
    if (flags / 2) % 2 == 1 then SetButton(b1, MouseX2, down) else b1
  }

  /** `r` differs from `s` only in button `b`, which is now `down`. */
  predicate SetsOnly(s: MouseState, r: MouseState, b: nat, down: bool)
    requires |s.buttons| == ButtonBound && |r.buttons| == ButtonBound && b < ButtonBound
  {
    && r.buttons[b] == down
    && (forall k :: 0 <= k < ButtonBound && k != b ==> r.buttons[k] == s.buttons[k])
    && r.(buttons := s.buttons) == s
  }

  /** The state after one message. */
  function AfterMessage(s: MouseState, message: nat, wParam: nat, lParam: int, raw: Option<RawMouse>): (r: MouseState)
    requires |s.buttons| == ButtonBound
    ensures |r.buttons| == ButtonBound
    ensures message == WmInput ==>
      r == (if raw.Some? then s.(deltaX := s.deltaX + raw.value.dx, deltaY := s.deltaY + raw.value.dy) else s)
    ensures message == WmMouseMove ==>
      && r.x == AsShort(LoWord(lParam)) && r.y == AsShort(HiWord(lParam))
      && r.deltaX == r.x - s.x && r.deltaY == r.y - s.y
      && r.wheelDelta == s.wheelDelta && r.buttons == s.buttons
    ensures message == WmMouseWheel ==>
      && r.(wheelDelta := s.wheelDelta) == s
      && var d, n := AsShort(HiWord(wParam)), r.wheelDelta - s.wheelDelta;
         (d >= 0 ==> 0 <= d - n * WheelDeltaUnit < WheelDeltaUnit)
         && (d < 0 ==> -WheelDeltaUnit < d - n * WheelDeltaUnit <= 0)
    ensures message == WmLButtonDown ==> SetsOnly(s, r, MouseLeft, true)
    ensures message == WmRButtonDown ==> SetsOnly(s, r, MouseRight, true)
    ensures message == WmMButtonDown ==> SetsOnly(s, r, MouseMiddle, true)
    ensures message == WmLButtonUp ==> SetsOnly(s, r, MouseLeft, false)
    ensures message == WmRButtonUp ==> SetsOnly(s, r, MouseRight, false)
    ensures message == WmMButtonUp ==> SetsOnly(s, r, MouseMiddle, false)
    ensures message == WmXButtonDown || message == WmXButtonUp ==>
      && r.(buttons := s.buttons) == s
      && var flags, down := HiWord(wParam), message == WmXButtonDown;
         && r.buttons[MouseX1] == (if flags % 2 == 1 then down else s.buttons[MouseX1])
         && r.buttons[MouseX2] == (if (flags / 2) % 2 == 1 then down else s.buttons[MouseX2])
         && forall k :: 0 <= k < MouseX1 ==> r.buttons[k] == s.buttons[k]
    ensures !IsButtonMessage(message) && message !in {WmInput, WmMouseMove, WmMouseWheel} ==> r == s
  {
    if message == WmInput then
      if raw.Some? then s.(deltaX := s.deltaX + raw.value.dx, deltaY := s.deltaY + raw.value.dy) else s
    else if message == WmMouseMove then
      var x := AsShort(LoWord(lParam));
      var y := AsShort(HiWord(lParam));
      s.(deltaX := x - s.x, deltaY := y - s.y, x := x, y := y)
    else if message == WmMouseWheel then
      s.(wheelDelta := s.wheelDelta + TruncDiv(AsShort(HiWord(wParam)), WheelDeltaUnit))
    else if message == WmLButtonDown then s.(buttons := SetButton(s.buttons, MouseLeft, true))
    else if message == WmRButtonDown then s.(buttons := SetButton(s.buttons, MouseRight, true))
    else if message == WmMButtonDown then s.(buttons := SetButton(s.buttons, MouseMiddle, true))
    else if message == WmLButtonUp then s.(buttons := SetButton(s.buttons, MouseLeft, false))
    else if message == WmRButtonUp then s.(buttons := SetButton(s.buttons, MouseRight, false))
    else if message == WmMButtonUp then s.(buttons := SetButton(s.buttons, MouseMiddle, false))
    else if message == WmXButtonDown then s.(buttons := SetXButtons(s.buttons, HiWord(wParam), true))
    else if message == WmXButtonUp then s.(buttons := SetXButtons(s.buttons, HiWord(wParam), false))
    else s
  }

  predicate IsButtonMessage(message: nat) {
    message in {WmLButtonDown, WmLButtonUp, WmRButtonDown, WmRButtonUp, WmMButtonDown, WmMButtonUp, WmXButtonDown, WmXButtonUp}
  }

  /** Only a mouse move changes the position; it sets the delta to the
      distance from the previous position. */
  lemma MoveSetsDelta(s: MouseState, message: nat, wParam: nat, lParam: int, raw: Option<RawMouse>)
    requires |s.buttons| == ButtonBound
    ensures var r := AfterMessage(s, message, wParam, lParam, raw);
      && (message != WmMouseMove ==> r.x == s.x && r.y == s.y)
      && (message == WmMouseMove ==>
            && -0x8000 <= r.x < 0x8000 && -0x8000 <= r.y < 0x8000
            && r.deltaX == r.x - s.x && r.deltaY == r.y - s.y
            && r.buttons == s.buttons && r.wheelDelta == s.wheelDelta)
  {
  }

  /** A raw packet accumulates into the delta instead of replacing it. */
  lemma RawInputAccumulates(s: MouseState, wParam: nat, lParam: int, p: RawMouse)
    requires |s.buttons| == ButtonBound
    ensures var r := AfterMessage(s, WmInput, wParam, lParam, Some(p));
      r == s.(deltaX := s.deltaX + p.dx, deltaY := s.deltaY + p.dy)
  {
  }

  /** The wheel adds whole notches, rounding toward zero: less than one
      notch either way adds nothing. */
  lemma WheelTruncates(s: MouseState, wParam: nat, lParam: int, raw: Option<RawMouse>)
    requires |s.buttons| == ButtonBound
    requires -WheelDeltaUnit < AsShort(HiWord(wParam)) < WheelDeltaUnit
    ensures AfterMessage(s, WmMouseWheel, wParam, lParam, raw) == s
  {
  }

  /** No message sets the MOUSE_WHEEL bit, and only button messages move
      any bit. */
  lemma WheelBitNeverSet(s: MouseState, message: nat, wParam: nat, lParam: int, raw: Option<RawMouse>)
    requires |s.buttons| == ButtonBound
    ensures AfterMessage(s, message, wParam, lParam, raw).buttons[MouseWheel] == s.buttons[MouseWheel]
    ensures !IsButtonMessage(message) ==> AfterMessage(s, message, wParam, lParam, raw).buttons == s.buttons
  {
  }

  /** An X-button message with both flags set presses or releases both. */
  lemma BothXButtons(s: MouseState, wParam: nat, lParam: int, raw: Option<RawMouse>, down: bool)
    requires |s.buttons| == ButtonBound
    requires HiWord(wParam) == XButton1 + XButton2
    ensures var r := AfterMessage(s, if down then WmXButtonDown else WmXButtonUp, wParam, lParam, raw);
      r.buttons[MouseX1] == down && r.buttons[MouseX2] == down
      && forall k :: 0 <= k < MouseX1 ==> r.buttons[k] == s.buttons[k]
  {
  }

  class MouseSingleton {
    var x: int
    var y: int
    var deltaX: int
    var deltaY: int
    var wheelDelta: int
    /** m_btButtonStates. */
    const buttons: array<bool>

    ghost predicate Valid()
      reads this
    {
      buttons.Length == ButtonBound
    }

    function State(): (s: MouseState)
      requires Valid()
      reads this, buttons
      ensures |s.buttons| == ButtonBound
    {
      MouseState(x, y, deltaX, deltaY, wheelDelta, buttons[..])
    }

    /** Construction (raw-input registration aside): everything zero. */
    constructor ()
      ensures Valid() && fresh(buttons)
      ensures State() == MouseState(0, 0, 0, 0, 0, [false, false, false, false, false, false])
    {
      x, y, deltaX, deltaY, wheelDelta := 0, 0, 0, 0, 0;
      buttons := new bool[ButtonBound](_ => false);
      new;
      assert buttons[..] == [false, false, false, false, false, false];
    }

    method SetXButtonBits(flags: int, down: bool)
      requires Valid() && 0 <= flags < 0x1_0000
      modifies buttons
      ensures buttons[..] == SetXButtons(old(buttons[..]), flags, down)
    {
      if flags % 2 == 1 {
        buttons[MouseX1] := down;
      }
      if (flags / 2) % 2 == 1 {
        buttons[MouseX2] := down;
      }
    }

    method HandleMessage(message: nat, wParam: nat, lParam: int, raw: Option<RawMouse>)
      requires Valid()
      modifies this, buttons
      ensures State() == AfterMessage(old(State()), message, wParam, lParam, raw)
    {
      if message == WmInput {
        if raw.Some? {
          deltaX := deltaX + raw.value.dx;
          deltaY := deltaY + raw.value.dy;
        }
      } else if message == WmMouseMove {
        var nx := AsShort(LoWord(lParam));
        var ny := AsShort(HiWord(lParam));
        deltaX := nx - x;
        deltaY := ny - y;
        x := nx;
        y := ny;
      } else if message == WmMouseWheel {
        wheelDelta := wheelDelta + TruncDiv(AsShort(HiWord(wParam)), WheelDeltaUnit);
      } else if message == WmLButtonDown {
        buttons[MouseLeft] := true;
      } else if message == WmRButtonDown {
        buttons[MouseRight] := true;
      } else if message == WmMButtonDown {
        buttons[MouseMiddle] := true;
      } else if message == WmLButtonUp {
        buttons[MouseLeft] := false;
      } else if message == WmRButtonUp {
        buttons[MouseRight] := false;
      } else if message == WmMButtonUp {
        buttons[MouseMiddle] := false;
      } else if message == WmXButtonDown {
        SetXButtonBits(HiWord(wParam), true);
      } else if message == WmXButtonUp {
        SetXButtonBits(HiWord(wParam), false);
      }
    }

    /** Reset: delta, wheel and buttons cleared; the position is kept. */
    method Reset()
      requires Valid()
      modifies this, buttons
      ensures State() == old(State()).(deltaX := 0, deltaY := 0, wheelDelta := 0, buttons := [false, false, false, false, false, false])
    {
      deltaX, deltaY := 0, 0;
      wheelDelta := 0;
      ClearButtons();
    }

    method ClearButtons()
      requires Valid()
      modifies buttons
      ensures buttons[..] == [false, false, false, false, false, false]
    {
      var k := 0;
      while k < ButtonBound
        invariant 0 <= k <= ButtonBound
        invariant forall j :: 0 <= j < k ==> !buttons[j]
      {
        buttons[k] := false;
        k := k + 1;
      }
      assert buttons[..] == [false, false, false, false, false, false];
    }

    function GetX(): (r: int)
      reads this
    {
      x
    }

    function GetY(): (r: int)
      reads this
    {
      y
    }

    function GetDeltaX(): (r: int)
      reads this
    {
      deltaX
    }

    function GetDeltaY(): (r: int)
      reads this
    {
      deltaY
    }

    function GetWheelDelta(): (r: int)
      reads this
    {
      wheelDelta
    }

    function IsMoved(): (r: bool)
      reads this
      ensures r <==> (deltaX, deltaY) != (0, 0)
    {
      deltaX != 0 || deltaY != 0
    }

    function IsScrolled(): (r: bool)
      reads this
      ensures r <==> wheelDelta != 0
    {
      wheelDelta != 0
    }

    /** IsButtonDown in a release build: an index past the bound is simply
      not down. */
    function IsButtonDown(index: nat): (r: bool)
      requires Valid()
      reads this, buttons
      ensures index >= ButtonBound ==> !r
      ensures index < ButtonBound ==> (r <==> buttons[index])
    {
      if index >= ButtonBound then false else buttons[index]
    }
  }
}
