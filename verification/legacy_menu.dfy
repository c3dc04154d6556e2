/**
 The menu the display task actually runs (`handleMenuKeyPress` and the menu
 part of `updateDisplay`), and the display power state. The menu's item
 counts are learnt only when a screen is drawn, so `Draw` is a step of its
 own: the count a key press sees is the one of the last screen drawn.
 The display's timers are `BlockNot` countdowns, modelled as a start time
 and a running flag.
 */
module LegacyMenu {
  import opened Types

  const MenuTimeoutMs: nat := 30000
  const DimAfterMs: nat := 30000
  const OffAfterMs: nat := 60000
  /** Lines of the main and settings menus visible at once. */
  const VisibleItems: int := 3
  const DeviceVisibleLines: int := 3
  const EthernetVisibleLines: int := 4

  datatype Screen = MainScreen | DeviceInfo | EthernetInfo | Settings | LoggingSettings

  /** A `BlockNot` timer: it has fired once `duration` has passed since
      `start`, while running. */
  datatype Countdown = Countdown(running: bool, start: nat, duration: nat)

  predicate Fired(t: Countdown, now: nat) {
    t.running && Since(now, t.start) >= t.duration
  }

  datatype LegacyMenu = LegacyMenu(
    mode: DisplayMode,
    screen: Screen,
    selection: int,
    maxMenuItems: int,
    mainScroll: int,
    settingsScroll: int,
    ethernetScroll: int,
    ethernetLines: int,
    deviceScroll: int,
    deviceLines: int,
    logToFile: bool,
    logToMqtt: bool,
    timer: Countdown)

  /** The file-scope initial values; no screen has been drawn yet. */
  function Init(logToFile: bool, logToMqtt: bool): (s: LegacyMenu)
    ensures s.mode == Normal && s.screen == MainScreen && s.selection == 0
    ensures s.maxMenuItems == 0 && s.ethernetLines == 0 && s.deviceLines == 0
    ensures !s.timer.running && s.timer.duration == MenuTimeoutMs
  {
    LegacyMenu(Normal, MainScreen, 0, 0, 0, 0, 0, 0, 0, 0, logToFile, logToMqtt, Countdown(false, 0, MenuTimeoutMs))
  }

  /** The number of items each screen announces when drawn. */
  function ItemCount(screen: Screen): (r: int)
    ensures r > 0
  {
    match screen
    case MainScreen => 4
    case DeviceInfo => 1
    case EthernetInfo => 1
    case Settings => 2
    case LoggingSettings => 3
  }

  /** Lines of the Ethernet screen: status and link, three link details
      while the link is up, five address lines with an address. */
  function EthernetLineCount(network: NetworkStatus, linkUp: bool): (r: int)
    ensures 2 <= r <= 10
    ensures network == NetConnectedIp && linkUp <==> r == 10
  {
    2 + (if linkUp then 3 else 0) + (if network == NetConnectedIp then 5 else 0)
  }

  /** Drawing the current screen records its item and line counts. */
  function Draw(s: LegacyMenu, network: NetworkStatus, linkUp: bool): (r: LegacyMenu)
    ensures r.maxMenuItems == ItemCount(s.screen)
    ensures s.screen == DeviceInfo ==> r.deviceLines == 5
    ensures s.screen == EthernetInfo ==> r.ethernetLines == EthernetLineCount(network, linkUp)
    ensures r.(maxMenuItems := s.maxMenuItems, deviceLines := s.deviceLines, ethernetLines := s.ethernetLines) == s
  {
    var t := s.(maxMenuItems := ItemCount(s.screen));
    match s.screen
    case DeviceInfo => t.(deviceLines := 5)
    case EthernetInfo => t.(ethernetLines := EthernetLineCount(network, linkUp))
    case _ => t
  }

  /** The state every exit leaves behind: normal display, main menu, first
      item, timer stopped. */
  function Exit(s: LegacyMenu): (r: LegacyMenu)
    ensures r.mode == Normal && r.screen == MainScreen && r.selection == 0 && r.mainScroll == 0
    ensures !r.timer.running
  {
    s.(mode := Normal, screen := MainScreen, selection := 0, mainScroll := 0, timer := s.timer.(running := false))
  }

  /** `startMenuTimeout`. */
  function StartTimeout(s: LegacyMenu, now: nat): (r: LegacyMenu)
    ensures r.timer.running && r.timer.start == now && (r.timer.duration > 0 ==> !Fired(r.timer, now))
    ensures r.(timer := s.timer) == s
  {
    s.(timer := s.timer.(running := true, start := now))
  }

  /** The menu-timeout check at the head of `updateDisplay`; during an OTA
      update the display task does nothing at all. */
  function CheckTimeout(s: LegacyMenu, now: nat, otaActive: bool): (r: LegacyMenu)
    ensures !otaActive && s.mode == MenuMode && Fired(s.timer, now) ==>
              r.mode == Normal && r.screen == MainScreen && r.selection == 0
              && r.mainScroll == 0 && r.settingsScroll == 0 && r.ethernetScroll == 0 && r.deviceScroll == 0
              && !r.timer.running
    ensures otaActive || s.mode != MenuMode || !Fired(s.timer, now) ==> r == s
  {
    if !otaActive && s.mode == MenuMode && Fired(s.timer, now) then
      Exit(s).(settingsScroll := 0, ethernetScroll := 0, deviceScroll := 0)
    else s
  }

  /** The main menu's Up: one up with the window following, or from the top
      to the last item with the window at the bottom. */
  function MainUp(sel: int, scroll: int, count: int): (r: (int, int))
    ensures sel > 0 ==> r.0 == sel - 1 && r.1 == (if sel - 1 < scroll then sel - 1 else scroll)
    ensures sel <= 0 ==> r.0 == count - 1 && r.1 == (if count > VisibleItems then count - VisibleItems else 0)
    ensures 0 <= scroll <= sel < scroll + VisibleItems && sel < count ==> 0 <= r.1 <= r.0 < r.1 + VisibleItems && 0 <= r.0 < count
  {
    if sel > 0 then (sel - 1, if sel - 1 < scroll then sel - 1 else scroll)
    else (count - 1, if count > VisibleItems then count - VisibleItems else 0)
  }

  /** The main and settings menus' Down: one down with the window following,
      or from the bottom back to the top. */
  function WindowDown(sel: int, scroll: int, count: int): (r: (int, int))
    ensures sel < count - 1 ==> r.0 == sel + 1
    ensures sel >= count - 1 ==> r == (0, 0)
    ensures 0 <= scroll <= sel < scroll + VisibleItems && 0 <= sel ==> 0 <= r.1 <= r.0 < r.1 + VisibleItems
    ensures 0 <= sel < count ==> 0 <= r.0 < count
  {
    if sel < count - 1 then
      var n := sel + 1;
      (n, if n >= scroll + VisibleItems then n - VisibleItems + 1 else scroll)
    else (0, 0)
  }

  /** Up and Down in menus without a window. */
  function PlainUp(sel: int, count: int): (r: int)
    ensures sel > 0 ==> r == sel - 1
    ensures sel <= 0 ==> r == count - 1
  {
    if sel > 0 then sel - 1 else count - 1
  }

  function PlainDown(sel: int, count: int): (r: int)
    ensures sel < count - 1 ==> r == sel + 1
    ensures sel >= count - 1 ==> r == 0
  {
    if sel < count - 1 then sel + 1 else 0
  }

  /** An information screen's Up: never below the first line. */
  function ScrollUp(scroll: int): (r: int)
    ensures scroll > 0 ==> r == scroll - 1
    ensures scroll <= 0 ==> r == scroll
  {
    if scroll > 0 then scroll - 1 else scroll
  }

  /** An information screen's Down: only while lines remain below the view. */
  function ScrollDown(scroll: int, visible: int, lines: int): (r: int)
    ensures scroll + visible < lines ==> r == scroll + 1
    ensures scroll + visible >= lines ==> r == scroll
    ensures scroll + visible <= lines ==> r + visible <= lines
  {
    if scroll + visible < lines then scroll + 1 else scroll
  }

  /** `handleMenuKeyPress`: restarts the timeout, then acts on the key for
      the current screen. Keys other than U, D, S and M do nothing else. */
  function HandleKey(s: LegacyMenu, key: char, now: nat): (r: LegacyMenu)
    ensures r.timer.start == now || !r.timer.running
    ensures key !in "UDSM" ==> r == s.(timer := s.timer.(start := now))
    ensures r.mode == s.mode || r.mode == Normal
  {
    var s := s.(timer := s.timer.(start := now));
    var n := s.maxMenuItems;
    if key == 'U' then
      match s.screen
      case EthernetInfo => s.(ethernetScroll := ScrollUp(s.ethernetScroll))
      case DeviceInfo => s.(deviceScroll := ScrollUp(s.deviceScroll))
      case MainScreen =>
        var (sel, scroll) := MainUp(s.selection, s.mainScroll, n);
        s.(selection := sel, mainScroll := scroll)
      case _ => s.(selection := PlainUp(s.selection, n))
    else if key == 'D' then
      match s.screen
      case EthernetInfo => s.(ethernetScroll := ScrollDown(s.ethernetScroll, EthernetVisibleLines, s.ethernetLines))
      case DeviceInfo => s.(deviceScroll := ScrollDown(s.deviceScroll, DeviceVisibleLines, s.deviceLines))
      case MainScreen =>
        var (sel, scroll) := WindowDown(s.selection, s.mainScroll, n);
        s.(selection := sel, mainScroll := scroll)
      case Settings =>
        var (sel, scroll) := WindowDown(s.selection, s.settingsScroll, n);
        s.(selection := sel, settingsScroll := scroll)
      case LoggingSettings => s.(selection := PlainDown(s.selection, n))
    else if key == 'S' then
      match s.screen
      case MainScreen =>
        if s.selection == 0 then s.(screen := DeviceInfo, selection := 0, deviceScroll := 0)
        else if s.selection == 1 then s.(screen := EthernetInfo, selection := 0, ethernetScroll := 0)
        else if s.selection == 2 then s.(screen := Settings, selection := 0, settingsScroll := 0)
        else if s.selection == 3 then Exit(s)
        else s
      case DeviceInfo => s.(screen := MainScreen, selection := 0, deviceScroll := 0)
      case EthernetInfo => s.(screen := MainScreen, selection := 1, ethernetScroll := 0)
      case Settings =>
        if s.selection == 0 then s.(screen := LoggingSettings, selection := 0)
        else if s.selection == 1 then s.(screen := MainScreen, selection := 2)
        else s
      case LoggingSettings =>
        if s.selection == 0 then s.(logToFile := !s.logToFile)
        else if s.selection == 1 then s.(logToMqtt := !s.logToMqtt)
        else if s.selection == 2 then s.(screen := Settings, selection := 0, settingsScroll := 0)
        else s
    else if key == 'M' then
      match s.screen
      case MainScreen => Exit(s)
      case DeviceInfo => s.(screen := MainScreen, selection := 0, deviceScroll := 0)
      case EthernetInfo => s.(screen := MainScreen, selection := 1, ethernetScroll := 0)
      case Settings => s.(screen := MainScreen, selection := 2, settingsScroll := 0)
      case LoggingSettings => s.(screen := Settings, selection := 0)
    else s
  }

  /** The main-menu entry a sub-screen returns to. */
  function ReturnIndex(screen: Screen): int {
    match screen
    case MainScreen => 0
    case DeviceInfo => 0
    case EthernetInfo => 1
    case Settings => 2
    case LoggingSettings => 2
  }

  /** A menu whose screen has been drawn: the selection is one of the drawn
      items, the main menu's window holds the main selection (or the entry
      the current sub-screen returns to), and the settings window is at the
      top. */
  predicate Sound(s: LegacyMenu) {
    && s.maxMenuItems == ItemCount(s.screen)
    && 0 <= s.selection < s.maxMenuItems
    && 0 <= s.mainScroll
    && (var main := if s.screen == MainScreen then s.selection else ReturnIndex(s.screen);
        s.mainScroll <= main < s.mainScroll + VisibleItems)
    && (s.screen == Settings || s.screen == LoggingSettings ==> s.settingsScroll == 0)
  }

  /** Entering the menu from the normal display and drawing it gives a sound
      menu. */
  lemma EnterSound(s: LegacyMenu, now: nat, network: NetworkStatus, linkUp: bool)
    requires s.screen == MainScreen && s.selection == 0 && s.mainScroll == 0
    ensures Sound(Draw(StartTimeout(s.(mode := MenuMode), now), network, linkUp))
  {
  }

  /** A key on a drawn menu either leaves the menu, back at the top of the
      main menu, or gives a menu that is sound once drawn. */
  lemma KeyThenDrawSound(s: LegacyMenu, key: char, now: nat, network: NetworkStatus, linkUp: bool)
    requires Sound(s) && s.mode == MenuMode
    ensures var r := HandleKey(s, key, now);
            (r.mode == Normal && r.screen == MainScreen && r.selection == 0 && r.mainScroll == 0)
            || (r.mode == MenuMode && Sound(Draw(r, network, linkUp)))
  {
    var r := HandleKey(s, key, now);
    if key == 'U' && s.screen == MainScreen {
      assert (r.selection, r.mainScroll) == MainUp(s.selection, s.mainScroll, 4);
    } else if key == 'D' && s.screen == MainScreen {
      assert (r.selection, r.mainScroll) == WindowDown(s.selection, s.mainScroll, 4);
    } else if key == 'D' && s.screen == Settings {
      assert (r.selection, r.settingsScroll) == WindowDown(s.selection, s.settingsScroll, 2);
    }
  }

  /** Back from every sub-screen lands on the entry that opened it. */
  lemma SelectThenBack(s: LegacyMenu, now: nat, later: nat)
    requires s.screen == MainScreen && 0 <= s.selection <= 2
    ensures var entered := HandleKey(s, 'S', now);
            var back := HandleKey(entered, 'M', later);
            back.screen == MainScreen && back.selection == s.selection && back.mode == s.mode
  {
  }

  /** On an information screen no key sequence of Up and Down scrolls past
      the top or, while the line count stays put, past the bottom. */
  lemma InfoScrollBounded(s: LegacyMenu, key: char, now: nat)
    requires s.screen == DeviceInfo && 0 <= s.deviceScroll
    requires s.deviceScroll == 0 || s.deviceScroll + DeviceVisibleLines <= s.deviceLines
    ensures var r := HandleKey(s, key, now);
            r.screen != DeviceInfo
            || (0 <= r.deviceScroll && (r.deviceScroll == 0 || r.deviceScroll + DeviceVisibleLines <= r.deviceLines))
  {
  }

  /** Keys that arrive before the first draw see an item count of 0: Up on
      the fresh main menu selects item -1, which no Select acts on. */
  lemma UpBeforeFirstDraw(now: nat)
    ensures HandleKey(Init(false, false).(mode := MenuMode), 'U', now).selection == -1
    ensures HandleKey(HandleKey(Init(false, false).(mode := MenuMode), 'U', now), 'S', now).screen == MainScreen
  {
  }

  /** Keys between two draws see the previous screen's count: three Downs
      in the settings screen, pressed before it is first drawn, select an
      item beyond its two. */
  lemma StaleCountOverruns(s: LegacyMenu, now: nat)
    requires Sound(s) && s.mode == MenuMode && s.screen == MainScreen && s.selection == 2
    ensures var r := HandleKey(HandleKey(HandleKey(HandleKey(s, 'S', now), 'D', now), 'D', now), 'D', now);
            r.screen == Settings && r.selection == 3 && r.selection >= ItemCount(Settings)
  {
  }

  // Display power ----------------------------------------------------------

  datatype Power = Power(started: bool, dimTimer: Countdown, offTimer: Countdown, dimmed: bool, off: bool)

  function PowerInit(): (p: Power)
    ensures !p.started && !p.dimmed && !p.off
  {
    Power(false, Countdown(false, 0, DimAfterMs), Countdown(false, 0, OffAfterMs), false, false)
  }

  /** The display is never both off and dimmed. */
  predicate PowerValid(p: Power) {
    !(p.off && p.dimmed)
  }

  /** A `BlockNot` check that restarts the countdown when it has fired. */
  function Poll(t: Countdown, now: nat): (r: (bool, Countdown))
    ensures r.0 == Fired(t, now)
    ensures r.0 ==> r.1 == t.(start := now)
    ensures !r.0 ==> r.1 == t
  {
    if Fired(t, now) then (true, t.(start := now)) else (false, t)
  }

  /** `checkDisplayPowerManagement`: the first call starts both timers; the
      display turns off when the off timer fires, else dims when the dim
      timer fires. */
  function CheckPower(p: Power, now: nat): (r: Power)
    ensures PowerValid(p) ==> PowerValid(r)
    ensures r.started
    ensures !p.started ==> r.dimTimer.running && r.offTimer.running
    ensures p.off ==> r.off
    ensures r.off && !p.off ==> !r.dimmed
  {
    var p := if p.started then p else p.(started := true, dimTimer := p.dimTimer.(running := true, start := now), offTimer := p.offTimer.(running := true, start := now));
    var (offFired, offTimer) := Poll(p.offTimer, now);
    var p := p.(offTimer := offTimer);
    if offFired && !p.off then p.(off := true, dimmed := false)
    else
      var (dimFired, dimTimer) := Poll(p.dimTimer, now);
      var p := p.(dimTimer := dimTimer);
      if dimFired && !p.dimmed && !p.off then p.(dimmed := true) else p
  }

  /** `wakeDisplay`: reports whether the display was off or dimmed, and
      leaves it fully on. */
  function Wake(p: Power): (r: (bool, Power))
    ensures r.0 <==> p.off || p.dimmed
    ensures !r.1.off && !r.1.dimmed && PowerValid(r.1)
    ensures r.1.(off := p.off, dimmed := p.dimmed) == p
  {
    if p.off then (true, p.(off := false, dimmed := false))
    else if p.dimmed then (true, p.(dimmed := false))
    else (false, p)
  }

  /** `updateDisplayActivity`: both countdowns restart, then the display
      wakes. */
  function Activity(p: Power, now: nat): (r: (bool, Power))
    ensures r.0 <==> p.off || p.dimmed
    ensures !r.1.off && !r.1.dimmed
    ensures r.1.dimTimer.start == now && r.1.offTimer.start == now
    ensures p.dimTimer.duration > 0 ==> !Fired(r.1.dimTimer, now)
    ensures p.offTimer.duration > 0 ==> !Fired(r.1.offTimer, now)
  {
    Wake(p.(dimTimer := p.dimTimer.(start := now), offTimer := p.offTimer.(start := now)))
  }

  /** Waking twice reports a wake only the first time. */
  lemma WakeOnce(p: Power)
    ensures !Wake(Wake(p).1).0
    ensures Wake(Wake(p).1).1 == Wake(p).1
  {
  }

  /** Once dimmed, the display stays dimmed or goes off; it never lights up
      again without activity. */
  lemma PowerOnlyDarkens(p: Power, now: nat)
    requires PowerValid(p) && (p.dimmed || p.off)
    ensures CheckPower(p, now).dimmed || CheckPower(p, now).off
  {
  }

  /** One pass of `updateDisplay` for the legacy menu: nothing during OTA;
      otherwise the menu timeout, the power check, and in menu mode a draw. */
  function UpdateDisplay(s: LegacyMenu, p: Power, now: nat, otaActive: bool, network: NetworkStatus, linkUp: bool): (r: (LegacyMenu, Power))
    ensures otaActive ==> r == (s, p)
    ensures !otaActive ==> r.1 == CheckPower(p, now)
    ensures !otaActive && r.0.mode == MenuMode ==> r.0.maxMenuItems == ItemCount(r.0.screen)
    ensures PowerValid(p) ==> PowerValid(r.1)
  {
    if otaActive then (s, p)
    else
      var s1 := CheckTimeout(s, now, false);
      var p1 := CheckPower(p, now);
      if s1.mode == MenuMode then (Draw(s1, network, linkUp), p1) else (s1, p1)
  }
}
