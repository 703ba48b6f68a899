/*
  The demo application's keyboard handling and two small lighting clamps.

  The handlers update the application's global state: the camera's
  per-axis velocity `cam`, the orbiting angle step `angleRot`, the
  post-processing effect and the animated character that are shown, and
  the day/night `transition` that blends the fog colour and dims the car's
  reflections. The globals become the fields of one object; the keyboard's
  modifier state and the clock reading are parameters. Single-precision
  rounding is not modelled: the constants are exact reals.
*/
module Controls {

  /** A camera velocity, one component per axis. */
  datatype Vec3 = Vec3(x: real, y: real, z: real)

  /** The keys of the special-key callbacks that the application reacts to. */
  datatype SpecialKey = Up | Down | Left | Right | PageUp | PageDown | F4 | F11 | OtherKey

  datatype Option<T> = None | Some(value: T)

  function Max(a: real, b: real): (r: real)
    ensures r >= a && r >= b && (r == a || r == b)
  {
    if a < b then b else a
  }

  function Min(a: real, b: real): (r: real)
    ensures r <= a && r <= b && (r == a || r == b)
  {
    if b < a then b else a
  }

  /** `max(lo, min(hi, v))`: within [lo, hi], and v itself whenever v already is. */
  function Clamp(v: real, lo: real, hi: real): (r: real)
    ensures lo <= hi ==> lo <= r <= hi
    ensures lo <= v <= hi ==> r == v
    ensures v > hi && lo <= hi ==> r == hi
    ensures v < lo ==> r == lo
  {
    Max(lo, Min(hi, v))
  }

  /** Lower-casing of the ASCII letters; every other character is kept. */
  function ToLower(c: char): (r: char)
    ensures 'A' <= c <= 'Z' ==> 'a' <= r <= 'z' && r as int - c as int == 32
    ensures !('A' <= c <= 'Z') ==> r == c
  {
    if 'A' <= c <= 'Z' then (c as int + 32) as char else c
  }

  /** The key-down switch: a movement key pushes its axis past 1.01 in magnitude. */
  function Accelerated(cam: Vec3, key: char): Vec3
  {
    match key
    case 'w' => cam.(z := Max(cam.z * 1.05, 1.01))
    case 's' => cam.(z := Min(cam.z * 1.05, -1.01))
    case 'a' => cam.(x := Max(cam.x * 1.05, 1.01))
    case 'd' => cam.(x := Min(cam.x * 1.05, -1.01))
    case 'e' => cam.(y := Max(cam.y * 1.05, 1.01))
    case 'q' => cam.(y := Min(cam.y * 1.05, -1.01))
    case _ => cam
  }

  /** The speed limit applied after every key-down, axis by axis. */
  function SpeedLimited(cam: Vec3): (r: Vec3)
    ensures -0.5 <= r.x <= 0.5 && -0.5 <= r.y <= 0.5 && -0.5 <= r.z <= 0.5
  {
    Vec3(Clamp(cam.x, -0.5, 0.5), Clamp(cam.y, -0.5, 0.5), Clamp(cam.z, -0.5, 0.5))
  }

  /** The orbiting step after a key-down: set by 'a' and 'd', and cleared unless Shift is held. */
  function Orbit(angle: real, key: char, shift: bool): real
  {
    if !shift then 0.0
    else if key == 'a' then 0.1
    else if key == 'd' then -0.1
    else angle
  }

  /** The key-up switch: releasing a movement key stops its axis. */
  function Released(cam: Vec3, key: char): Vec3
  {
    if key == 'w' || key == 's' then cam.(z := 0.0)
    else if key == 'a' || key == 'd' then cam.(x := 0.0)
    else if key == 'q' || key == 'e' then cam.(y := 0.0)
    else cam
  }

  /** Advancing a mode counter that wraps to 0 past `last`. */
  function Cycle(mode: int, last: int): int
  {
    if mode + 1 > last then 0 else mode + 1
  }

  /** `n` presses of a cycling key. */
  function CycleTimes(mode: int, last: int, n: nat): int
  {
    if n == 0 then mode else Cycle(CycleTimes(mode, last, n - 1), last)
  }

  /** The letter key a special key is forwarded to, if any. */
  function LetterOf(key: SpecialKey): Option<char>
  {
    match key
    case Up => Some('w')
    case Down => Some('s')
    case Left => Some('a')
    case Right => Some('d')
    case PageUp => Some('q')
    case PageDown => Some('e')
    case _ => None
  }

  /**
    The day/night blend as a function of the hour: dark until hour 0,
    brightening until hour 4, full day until hour 12, darkening until
    hour 16, dark after.
   */
  function DayLight(hour: real): real
  {
    if hour <= 0.0 then 0.0
    else if hour <= 4.0 then hour / 4.0
    else if hour <= 12.0 then 1.0
    else if hour <= 16.0 then (16.0 - hour) / 4.0
    else 0.0
  }

  // ---------------------------------------------------------------------
  // Properties of the key handling

  /** After any key-down every velocity component is within [-0.5, 0.5]. */
  lemma KeyDownSpeedLimit(cam: Vec3, key: char)
    ensures var r := SpeedLimited(Accelerated(cam, ToLower(key)));
      -0.5 <= r.x <= 0.5 && -0.5 <= r.y <= 0.5 && -0.5 <= r.z <= 0.5
  {
  }

  /**
    A movement key sets its axis to full speed in its direction, whatever
    the axis held before, and leaves the other axes merely clamped.
   */
  lemma KeyDownFullSpeed(cam: Vec3, key: char)
    ensures var r := SpeedLimited(Accelerated(cam, key));
      && (key == 'w' ==> r.z == 0.5 && r.x == Clamp(cam.x, -0.5, 0.5) && r.y == Clamp(cam.y, -0.5, 0.5))
      && (key == 's' ==> r.z == -0.5 && r.x == Clamp(cam.x, -0.5, 0.5) && r.y == Clamp(cam.y, -0.5, 0.5))
      && (key == 'a' ==> r.x == 0.5 && r.y == Clamp(cam.y, -0.5, 0.5) && r.z == Clamp(cam.z, -0.5, 0.5))
      && (key == 'd' ==> r.x == -0.5 && r.y == Clamp(cam.y, -0.5, 0.5) && r.z == Clamp(cam.z, -0.5, 0.5))
      && (key == 'e' ==> r.y == 0.5 && r.x == Clamp(cam.x, -0.5, 0.5) && r.z == Clamp(cam.z, -0.5, 0.5))
      && (key == 'q' ==> r.y == -0.5 && r.x == Clamp(cam.x, -0.5, 0.5) && r.z == Clamp(cam.z, -0.5, 0.5))
  {
  }

  /** A key that is not a movement key changes the velocity only by the speed limit. */
  lemma KeyDownOtherKey(cam: Vec3, key: char)
    requires key !in {'w', 's', 'a', 'd', 'e', 'q'}
    ensures SpeedLimited(Accelerated(cam, key)) == SpeedLimited(cam)
  {
  }

  /** Without Shift the camera stops orbiting; with it, 'a' and 'd' choose the direction. */
  lemma OrbitOnlyWithShift(angle: real, key: char, shift: bool)
    ensures !shift ==> Orbit(angle, key, shift) == 0.0
    ensures shift && key == 'a' ==> Orbit(angle, key, shift) == 0.1
    ensures shift && key == 'd' ==> Orbit(angle, key, shift) == -0.1
    ensures shift && key != 'a' && key != 'd' ==> Orbit(angle, key, shift) == angle
  {
  }

  /** A key-up zeroes exactly the released key's axis and nothing else. */
  lemma KeyUpStopsOneAxis(cam: Vec3, key: char)
    ensures var r := Released(cam, key);
      && (key in {'w', 's'} ==> r == Vec3(cam.x, cam.y, 0.0))
      && (key in {'a', 'd'} ==> r == Vec3(0.0, cam.y, cam.z))
      && (key in {'q', 'e'} ==> r == Vec3(cam.x, 0.0, cam.z))
      && (key !in {'w', 's', 'a', 'd', 'q', 'e'} ==> r == cam)
  {
  }

  /** A cycling counter that starts in [0, last] stays there. */
  lemma CycleInRange(mode: int, last: int)
    requires 0 <= mode <= last
    ensures 0 <= Cycle(mode, last) <= last
  {
  }

  /**
    From a mode in range, up to `last + 1` presses count upwards and wrap
    once: `mode + n`, less `last + 1` once the count has passed `last`.
   */
  lemma {:induction false} CycleTimesIs(mode: int, last: int, n: nat)
    requires 0 <= mode <= last && n <= last + 1
    ensures CycleTimes(mode, last, n) == if mode + n <= last then mode + n else mode + n - (last + 1)
  {
    if n > 0 {
      CycleTimesIs(mode, last, n - 1);
    }
  }

  /** `last + 1` presses bring a mode in range back to where it was. */
  lemma CycleReturns(mode: int, last: int)
    requires 0 <= mode <= last
    ensures CycleTimes(mode, last, last + 1) == mode
  {
    CycleTimesIs(mode, last, last + 1);
  }

  /** The blend is within [0, 1] at every hour, and the evening mirrors the morning about hour 8. */
  lemma DayLightRange(hour: real)
    ensures 0.0 <= DayLight(hour) <= 1.0
    ensures DayLight(16.0 - hour) == DayLight(hour)
  {
  }

  // ---------------------------------------------------------------------
  // The application's input state

  class InputState {
    var cam: Vec3
    var angleRot: real
    var postProcessMode: int
    var animationMode: int
    var transition: real

    /** The globals' initial values: no motion, orbiting step 0.1, first effect and first character. */
    constructor()
      ensures cam == Vec3(0.0, 0.0, 0.0) && angleRot == 0.1
      ensures postProcessMode == 0 && animationMode == 0 && transition == 0.0
    {
      cam := Vec3(0.0, 0.0, 0.0);
      angleRot := 0.1;
      postProcessMode := 0;
      animationMode := 0;
      transition := 0.0;
    }

    /** Key-down of an ordinary key, with the state of the Shift modifier. */
    method KeyDown(key: char, shift: bool)
      modifies this
      ensures cam == SpeedLimited(Accelerated(old(cam), ToLower(key)))
      ensures angleRot == Orbit(old(angleRot), ToLower(key), shift)
      ensures postProcessMode == old(postProcessMode) && animationMode == old(animationMode)
      ensures transition == old(transition)
    {
      var k := ToLower(key);
      if k == 'w' {
        cam := cam.(z := Max(cam.z * 1.05, 1.01));
      } else if k == 's' {
        cam := cam.(z := Min(cam.z * 1.05, -1.01));
      } else if k == 'a' {
        cam := cam.(x := Max(cam.x * 1.05, 1.01));
        angleRot := 0.1;
      } else if k == 'd' {
        cam := cam.(x := Min(cam.x * 1.05, -1.01));
        angleRot := -0.1;
      } else if k == 'e' {
        cam := cam.(y := Max(cam.y * 1.05, 1.01));
      } else if k == 'q' {
        cam := cam.(y := Min(cam.y * 1.05, -1.01));
      }
      cam := cam.(x := Max(-0.5, Min(0.5, cam.x)));
      cam := cam.(y := Max(-0.5, Min(0.5, cam.y)));
      cam := cam.(z := Max(-0.5, Min(0.5, cam.z)));
      if !shift {
        angleRot := 0.0;
      }
    }

    /** Key-up of an ordinary key: stop an axis, or advance the effect or the character. */
    method KeyUp(key: char)
      modifies this
      ensures cam == Released(old(cam), ToLower(key))
      ensures postProcessMode == if ToLower(key) == '1' then Cycle(old(postProcessMode), 6) else old(postProcessMode)
      ensures animationMode == if ToLower(key) == '2' then Cycle(old(animationMode), 2) else old(animationMode)
      ensures angleRot == old(angleRot) && transition == old(transition)
    {
      var k := ToLower(key);
      if k == 'w' || k == 's' {
        cam := cam.(z := 0.0);
      } else if k == 'a' || k == 'd' {
        cam := cam.(x := 0.0);
      } else if k == 'q' || k == 'e' {
        cam := cam.(y := 0.0);
      } else if k == '1' {
        postProcessMode := postProcessMode + 1;
        if postProcessMode > 6 {
          postProcessMode := 0;
        }
      } else if k == '2' {
        animationMode := animationMode + 1;
        if animationMode > 2 {
          animationMode := 0;
        }
      }
    }

    /** Key-down of a special key: the arrows and page keys act as their letters. */
    method SpecDown(key: SpecialKey, shift: bool)
      modifies this
      ensures LetterOf(key).Some? ==>
        cam == SpeedLimited(Accelerated(old(cam), LetterOf(key).value))
        && angleRot == Orbit(old(angleRot), LetterOf(key).value, shift)
      ensures LetterOf(key).None? ==> cam == old(cam) && angleRot == old(angleRot)
      ensures postProcessMode == old(postProcessMode) && animationMode == old(animationMode)
      ensures transition == old(transition)
    {
      match key
      case Up => KeyDown('w', shift);
      case Down => KeyDown('s', shift);
      case Left => KeyDown('a', shift);
      case Right => KeyDown('d', shift);
      case PageUp => KeyDown('q', shift);
      case PageDown => KeyDown('e', shift);
      case _ =>
    }

    /** Key-up of a special key: the arrows and page keys act as their letters. */
    method SpecUp(key: SpecialKey)
      modifies this
      ensures LetterOf(key).Some? ==> cam == Released(old(cam), LetterOf(key).value)
      ensures LetterOf(key).None? ==> cam == old(cam)
      ensures angleRot == old(angleRot) && transition == old(transition)
      ensures postProcessMode == old(postProcessMode) && animationMode == old(animationMode)
    {
      match key
      case Up => KeyUp('w');
      case Down => KeyUp('s');
      case Left => KeyUp('a');
      case Right => KeyUp('d');
      case PageUp => KeyUp('q');
      case PageDown => KeyUp('e');
      case _ =>
    }

    /** The per-frame day/night blend for the given hour of the simulated day. */
    method UpdateTransition(hour: real)
      modifies this
      ensures transition == DayLight(hour) && 0.0 <= transition <= 1.0
      ensures cam == old(cam) && angleRot == old(angleRot)
      ensures postProcessMode == old(postProcessMode) && animationMode == old(animationMode)
    {
      transition := hour / 4.0;
      if transition > 1.0 {
        transition := 1.0;
      }
      if hour > 12.0 {
        transition := (16.0 - hour) / 4.0;
      }
      if transition < 0.0 {
        transition := 0.0;
      }
      DayLightRange(hour);
    }

    /**
      The car's reflection strength: 0.4 until the blend passes 0.6, then
      falling with it to 0 at full day.
     */
    method ReflectionPower() returns (power: real)
      ensures transition <= 0.6 ==> power == 0.4
      ensures transition > 0.6 ==> power == 1.0 - transition
      ensures 0.0 <= transition <= 1.0 ==> 0.0 <= power <= 0.4
    {
      var reflectionValue := transition - 0.6;
      if reflectionValue <= 0.0 {
        reflectionValue := 0.0;
      }
      power := 0.4 - reflectionValue;
    }
  }
}
