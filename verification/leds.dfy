/**
 The status LEDs (`updateLEDs` and `LEDManager`): the colour each LED shows
 for the shared status, recomputed only when the status has changed, the
 per-LED colour and on/off slots, and the pulse and rainbow counters. Named
 colours carry their CSS colour-keyword values, as the LED library defines
 them; channel values are scaled from 0..255 to 0..RGBLED_MAX_BRIGHTNESS with
 the Arduino `map` formula. Writing the pixels out is not modelled.
 */
module Leds {
  import opened Types
  import ViewModel

  const LedCount: nat := 3
  const MaxBrightness: nat := 128
  const SystemLed: nat := 0
  const NetworkLed: nat := 2

  datatype Named = Green | Blue | Red | White | Grey | Orange | Yellow | Violet | Cyan | DarkBlue | Purple

  datatype Rgb = Rgb(red: nat, green: nat, blue: nat)

  /** A colour channel is a byte. */
  predicate IsByte(x: nat) {
    x < 256
  }

  /** The CSS colour-keyword value of each named colour. */
  function Code(c: Named): (r: Rgb)
    ensures IsByte(r.red) && IsByte(r.green) && IsByte(r.blue)
  {
    match c
    case Green => Rgb(0x00, 0x80, 0x00)
    case Blue => Rgb(0x00, 0x00, 0xFF)
    case Red => Rgb(0xFF, 0x00, 0x00)
    case White => Rgb(0xFF, 0xFF, 0xFF)
    case Grey => Rgb(0x80, 0x80, 0x80)
    case Orange => Rgb(0xFF, 0xA5, 0x00)
    case Yellow => Rgb(0xFF, 0xFF, 0x00)
    case Violet => Rgb(0xEE, 0x82, 0xEE)
    case Cyan => Rgb(0x00, 0xFF, 0xFF)
    case DarkBlue => Rgb(0x00, 0x00, 0x8B)
    case Purple => Rgb(0x80, 0x00, 0x80)
  }

  /** Arduino `map(x, 0, 255, 0, RGBLED_MAX_BRIGHTNESS)` on a non-negative
      value: a truncating linear rescale. */
  function Scale(x: nat): (r: nat)
    ensures IsByte(x) ==> r <= MaxBrightness
    ensures r * 255 <= x * MaxBrightness < (r + 1) * 255
  {
    x * MaxBrightness / 255
  }

  lemma ScaleMonotone(x: nat, y: nat)
    requires x <= y
    ensures Scale(x) <= Scale(y)
  {
    assert Scale(x) * 255 <= x * MaxBrightness <= y * MaxBrightness < (Scale(y) + 1) * 255;
  }

  function ScaleRgb(c: Rgb): (r: Rgb)
    ensures IsByte(c.red) && IsByte(c.green) && IsByte(c.blue) ==>
              r.red <= MaxBrightness && r.green <= MaxBrightness && r.blue <= MaxBrightness
  {
    Rgb(Scale(c.red), Scale(c.green), Scale(c.blue))
  }

  /** The system LED: green running, blue updating, red after a failed
      update. */
  function SystemColour(d: DeviceStatus): (r: Named)
    ensures r == Green <==> d == DeviceStarted
    ensures r == Blue <==> d == DeviceUpdating
    ensures r == Red <==> d == DeviceUpdateFailed
  {
    match d
    case DeviceStarted => Green
    case DeviceUpdating => Blue
    case DeviceUpdateFailed => Red
  }

  /** The network LED: the link state, refined by reachability once there is
      an address, refined by the services once online. */
  function NetworkColour(n: NetworkStatus, c: ConnectivityStatus, s: ServiceStatus): (r: Named)
    ensures r == Green <==> n == NetConnectedIp && c == Online && s == SvcConnected
    ensures n != NetConnectedIp ==> r in {Grey, White, Orange, Yellow}
    ensures n == NetConnectedIp && c != Online ==> r in {Violet, Cyan}
  {
    match n
    case NetStopped => Grey
    case NetStarted => White
    case NetDisconnected => Orange
    case NetConnected => Yellow
    case NetConnectedIp =>
      (match c
       case Offline => Violet
       case Checking => Cyan
       case Online =>
         match s
         case SvcStopped => DarkBlue
         case SvcNotConnected => DarkBlue
         case SvcStarting => Blue
         case SvcConnecting => Purple
         case SvcConnected => Green
         case SvcError => Red)
    case NetLostIp => Grey
  }

  /** The services only show while online, and reachability only while an
      address is held. */
  lemma NetworkColourLayers(n: NetworkStatus, c1: ConnectivityStatus, c2: ConnectivityStatus, s1: ServiceStatus, s2: ServiceStatus)
    ensures n != NetConnectedIp ==> NetworkColour(n, c1, s1) == NetworkColour(n, c2, s2)
    ensures c1 != Online ==> NetworkColour(n, c1, s1) == NetworkColour(n, c1, s2)
  {
  }

  datatype Leds = Leds(
    colours: seq<Rgb>,
    pixels: seq<Rgb>,
    states: seq<bool>,
    isOn: bool,
    pulsing: bool,
    rainbow: bool,
    brightness: nat,
    currentBrightness: int,
    pulseUp: bool,
    colourIndex: int)

  /** Three slots, and the pulse and rainbow counters in their ranges: the
      pulse level in 0..128, never at the end it is heading away from; the
      rainbow index below 255. */
  predicate Valid(l: Leds) {
    && |l.colours| == LedCount && |l.pixels| == LedCount && |l.states| == LedCount
    && 0 <= l.currentBrightness <= MaxBrightness
    && (l.pulseUp ==> l.currentBrightness < MaxBrightness)
    && (!l.pulseUp ==> l.currentBrightness > 0)
    && 0 <= l.colourIndex < 255
  }

  /** The constructor: off, brightness set from `RGBLED_MAX_BRIGHTNESS`,
      pulse at 0 going up, rainbow at 0. */
  function Init(): (l: Leds)
    ensures Valid(l) && !l.isOn && !l.pulsing && !l.rainbow
    ensures l.brightness == Scale(MaxBrightness)
  {
    var black := Rgb(0, 0, 0);
    Leds([black, black, black], [black, black, black], [false, false, false],
         false, false, false, Scale(MaxBrightness), 0, true, 0)
  }

  /** `setBrightness(RGBLED_MAX_BRIGHTNESS)` rescales 128 as if it were on the
      0..255 scale, so the strip starts at half of the maximum. */
  lemma InitHalfBrightness()
    ensures Init().brightness == 64
  {
  }

  /** `setLEDColour`: stores the scaled colour and shows it. The index is not
      checked; only the three LEDs exist. */
  function SetLedColour(l: Leds, index: nat, c: Rgb): (r: Leds)
    requires Valid(l) && index < LedCount
    ensures Valid(r)
    ensures r.colours[index] == ScaleRgb(c) && r.pixels[index] == ScaleRgb(c)
    ensures forall i :: 0 <= i < LedCount && i != index ==> r.colours[i] == l.colours[i] && r.pixels[i] == l.pixels[i]
    ensures r.states == l.states
  {
    l.(colours := l.colours[index := ScaleRgb(c)], pixels := l.pixels[index := ScaleRgb(c)])
  }

  /** `off`: every pixel black, the strip marked off; the stored colours
      stay. */
  function Off(l: Leds): (r: Leds)
    requires Valid(l)
    ensures Valid(r) && !r.isOn && r.colours == l.colours
    ensures forall i :: 0 <= i < LedCount ==> r.pixels[i] == Rgb(0, 0, 0)
  {
    var black := Rgb(0, 0, 0);
    l.(pixels := [black, black, black], isOn := false)
  }

  /** `on`: the strip is marked on and shows the pixels it holds; nothing
      is restored. */
  function On(l: Leds): (r: Leds)
    requires Valid(l)
    ensures Valid(r) && r.isOn
    ensures r.(isOn := l.isOn) == l
  {
    l.(isOn := true)
  }

  /** `toggle`: off when on, on when off. */
  function Toggle(l: Leds): (r: Leds)
    requires Valid(l)
    ensures Valid(r) && r.isOn == !l.isOn
    ensures l.isOn ==> r == Off(l)
    ensures !l.isOn ==> r == On(l)
  {
    if l.isOn then Off(l) else On(l)
  }

  /** Toggling a lit strip off and on again leaves it on but dark: `off`
      blacks the pixels and `on` does not bring the stored colours back. */
  lemma ToggleTwiceDark(l: Leds)
    requires Valid(l) && l.isOn
    ensures Toggle(Toggle(l)).isOn && Toggle(Toggle(l)).colours == l.colours
    ensures forall i :: 0 <= i < LedCount ==> Toggle(Toggle(l)).pixels[i] == Rgb(0, 0, 0)
  {
  }

  /** `togglePulsing` and `toggleRainbow` flip one mode flag each. */
  function TogglePulsing(l: Leds): (r: Leds)
    requires Valid(l)
    ensures Valid(r) && r.pulsing == !l.pulsing
    ensures r.(pulsing := l.pulsing) == l
  {
    l.(pulsing := !l.pulsing)
  }

  function ToggleRainbow(l: Leds): (r: Leds)
    requires Valid(l)
    ensures Valid(r) && r.rainbow == !l.rainbow
    ensures r.(rainbow := l.rainbow) == l
  {
    l.(rainbow := !l.rainbow)
  }

  /** `setBrightness`: the level is rescaled from 0..255 to 0..128. */
  function SetBrightness(l: Leds, level: nat): (r: Leds)
    requires Valid(l)
    ensures Valid(r)
    ensures IsByte(level) ==> r.brightness <= MaxBrightness
    ensures r.brightness * 255 <= level * MaxBrightness < (r.brightness + 1) * 255
    ensures r.(brightness := l.brightness) == l
  {
    l.(brightness := Scale(level))
  }

  /** `setColour`: every pixel the scaled colour, and the rainbow stops. */
  function SetColour(l: Leds, c: Rgb): (r: Leds)
    requires Valid(l)
    ensures Valid(r) && !r.rainbow
    ensures forall i :: 0 <= i < LedCount ==> r.pixels[i] == ScaleRgb(c)
    ensures r.colours == l.colours && r.isOn == l.isOn
  {
    var s := ScaleRgb(c);
    l.(pixels := [s, s, s], rainbow := false)
  }

  /** `setLEDState`: an index outside the strip is ignored; otherwise the LED
      shows its stored colour when on and black when off. */
  function SetLedState(l: Leds, index: int, on: bool): (r: Leds)
    requires Valid(l)
    ensures Valid(r)
    ensures !(0 <= index < LedCount as int) ==> r == l
    ensures 0 <= index < LedCount as int ==>
              && r.states[index] == on
              && r.pixels[index] == (if on then l.colours[index] else Rgb(0, 0, 0))
              && r.colours == l.colours
              && (forall i :: 0 <= i < LedCount && i != index ==> r.pixels[i] == l.pixels[i] && r.states[i] == l.states[i])
  {
    if 0 <= index < LedCount as int then
      l.(states := l.states[index := on], pixels := l.pixels[index := if on then l.colours[index] else Rgb(0, 0, 0)])
    else l
  }

  /** Switching an LED off and on again shows its colour. */
  lemma OffOnRestores(l: Leds, index: nat)
    requires Valid(l) && index < LedCount
    ensures SetLedState(SetLedState(l, index, false), index, true).pixels[index] == l.colours[index]
  {
  }

  /** `updateLEDs`: only a changed status recomputes the system and network
      LEDs, and the change is then acknowledged. */
  function UpdateLeds(vm: ViewModel.Model, l: Leds): (r: (ViewModel.Model, Leds))
    requires Valid(l)
    ensures Valid(r.1) && !r.0.dirty
    ensures !vm.dirty ==> r == (vm, l)
    ensures vm.dirty ==>
              && r.0 == ViewModel.ClearDirty(vm)
              && r.1.colours[SystemLed] == ScaleRgb(Code(SystemColour(vm.device)))
              && r.1.colours[NetworkLed] == ScaleRgb(Code(NetworkColour(vm.network, vm.connectivity, vm.services)))
              && r.1.colours[1] == l.colours[1]
  {
    if !vm.dirty then (vm, l)
    else
      var l1 := SetLedColour(l, SystemLed, Code(SystemColour(vm.device)));
      var l2 := SetLedColour(l1, NetworkLed, Code(NetworkColour(vm.network, vm.connectivity, vm.services)));
      (ViewModel.ClearDirty(vm), l2)
  }

  /** A second pass without a status change leaves everything as it is. */
  lemma UpdateLedsOnce(vm: ViewModel.Model, l: Leds)
    requires Valid(l)
    ensures UpdateLeds(UpdateLeds(vm, l).0, UpdateLeds(vm, l).1) == UpdateLeds(vm, l)
  {
  }

  /** The colour of a fully saturated rainbow hue: the LED library's HSV to
      RGB conversion, which is not part of this model and is passed in. */
  type Wheel = nat -> Rgb

  /** `fill_rainbow(initialHue, delta)` on the first n pixels: the hue starts
      at `initialHue` and each further pixel adds `delta` in a byte. */
  function FillRainbow(hue: nat, delta: nat, n: nat, wheel: Wheel): (r: seq<Rgb>)
    ensures |r| == n
    decreases n
  {
    if n == 0 then [] else [wheel(hue % 256)] + FillRainbow((hue + delta) % 256, delta, n - 1, wheel)
  }

  /** Pixel k of a rainbow fill shows hue `initialHue + k * delta`, taken
      modulo 256. */
  lemma {:induction false} FillRainbowHues(hue: nat, delta: nat, n: nat, wheel: Wheel, k: nat)
    requires k < n
    ensures FillRainbow(hue, delta, n, wheel)[k] == wheel((hue + k * delta) % 256)
    decreases k
  {
    if k > 0 {
      var next := (hue + delta) % 256;
      FillRainbowHues(next, delta, n - 1, wheel, k - 1);
      assert FillRainbow(hue, delta, n, wheel)[k] == FillRainbow(next, delta, n - 1, wheel)[k - 1];
      ShiftedHue(hue, delta, k);
    }
  }

  /** The strip's rainbow from hue 0: pixel k shows hue `k * delta`. */
  lemma StripRainbow(delta: nat, wheel: Wheel)
    ensures forall k :: 0 <= k < LedCount ==> FillRainbow(0, delta, LedCount, wheel)[k] == wheel((k * delta) % 256)
  {
    forall k | 0 <= k < LedCount
      ensures FillRainbow(0, delta, LedCount, wheel)[k] == wheel((k * delta) % 256)
    {
      FillRainbowHues(0, delta, LedCount, wheel, k);
    }
  }

  /** Starting one pixel later from the byte-wrapped next hue reaches the
      same hue. */
  lemma ShiftedHue(hue: nat, delta: nat, k: nat)
    requires k > 0
    ensures ((hue + delta) % 256 + (k - 1) * delta) % 256 == (hue + k * delta) % 256
  {
    var q := (hue + delta) / 256;
    assert (hue + delta) % 256 == hue + delta - 256 * q;
    assert (hue + delta) % 256 + (k - 1) * delta == hue + k * delta - 256 * q;
  }

  /** `LEDManager::update`: while on, the pulse level steps toward the end it
      is heading for and turns at 0 and 128; in rainbow mode the index steps,
      `fill_rainbow(0, index)` repaints every pixel with hue `k * index` for
      pixel k, and an index of 255 wraps to 0 after the fill. */
  function Update(l: Leds, wheel: Wheel): (r: Leds)
    requires Valid(l)
    ensures Valid(r)
    ensures !l.isOn ==> r == l
    ensures l.isOn && l.rainbow ==>
              forall k :: 0 <= k < LedCount ==> r.pixels[k] == wheel((k * (l.colourIndex + 1)) % 256)
    ensures !(l.isOn && l.rainbow) ==> r.pixels == l.pixels
    ensures r.colours == l.colours && r.states == l.states
    ensures l.isOn && l.pulsing ==>
              r.currentBrightness == (if l.pulseUp then l.currentBrightness + 1 else l.currentBrightness - 1)
              && r.brightness == Scale(r.currentBrightness as nat)
              && (r.pulseUp != l.pulseUp <==> r.currentBrightness == 0 || r.currentBrightness == MaxBrightness)
    ensures l.isOn && l.rainbow ==> r.colourIndex == (l.colourIndex + 1) % 255
  {
    if !l.isOn then l else RainbowStep(PulseStep(l), wheel)
  }

  /** The pulse half of a tick: one step toward the end the level is heading
      for, turning there. */
  function PulseStep(l: Leds): (r: Leds)
    requires Valid(l)
    ensures Valid(r)
    ensures !l.pulsing ==> r == l
    ensures l.pulsing ==>
              r.currentBrightness == (if l.pulseUp then l.currentBrightness + 1 else l.currentBrightness - 1)
              && r.brightness == Scale(r.currentBrightness as nat)
              && (r.pulseUp != l.pulseUp <==> r.currentBrightness == 0 || r.currentBrightness == MaxBrightness)
    ensures r.(brightness := l.brightness, currentBrightness := l.currentBrightness, pulseUp := l.pulseUp) == l
  {
    if !l.pulsing then l
    else if l.pulseUp then
      var b := l.currentBrightness + 1;
      SetBrightness(l, b).(currentBrightness := b, pulseUp := b != MaxBrightness)
    else
      var b := l.currentBrightness - 1;
      SetBrightness(l, b).(currentBrightness := b, pulseUp := b == 0)
  }

  /** The rainbow half of a tick: the index steps, the strip is filled from
      hue 0 in steps of the new index, and 255 wraps to 0 after the fill. */
  function RainbowStep(l: Leds, wheel: Wheel): (r: Leds)
    requires Valid(l)
    ensures Valid(r)
    ensures !l.rainbow ==> r == l
    ensures l.rainbow ==>
              && (forall k :: 0 <= k < LedCount ==> r.pixels[k] == wheel((k * (l.colourIndex + 1)) % 256))
              && r.colourIndex == (l.colourIndex + 1) % 255
    ensures r.(pixels := l.pixels, colourIndex := l.colourIndex) == l
  {
    if !l.rainbow then l
    else
      var i := l.colourIndex + 1;
      StripRainbow(i, wheel);
      l.(pixels := FillRainbow(0, i, LedCount, wheel), colourIndex := if i == 255 then 0 else i)
  }

  /** `LEDManager::update` repeated n times. */
  function Run(l: Leds, n: nat, wheel: Wheel): (r: Leds)
    requires Valid(l)
    ensures Valid(r)
    decreases n
  {
    if n == 0 then l else Run(Update(l, wheel), n - 1, wheel)
  }

  /** Going up, each pulse step raises the level by one, and the direction
      turns exactly when the top is reached. */
  lemma {:induction false} PulseClimbs(l: Leds, n: nat, wheel: Wheel)
    requires Valid(l) && l.isOn && l.pulsing && l.pulseUp
    requires n <= MaxBrightness - l.currentBrightness
    ensures Run(l, n, wheel).currentBrightness == l.currentBrightness + n
    ensures Run(l, n, wheel).pulseUp <==> l.currentBrightness + n < MaxBrightness
    ensures Run(l, n, wheel).isOn && Run(l, n, wheel).pulsing
    decreases n
  {
    if n > 1 {
      PulseClimbs(Update(l, wheel), n - 1, wheel);
    }
  }
}
