/**
 The general menu engine (`MenuManager`). Menus are held in a store and
 referred to by index; a menu's parent link, selection and scroll position
 live in the store, as they live in the menu objects of the firmware. Each
 item carries the value it edits (the firmware points at an outside variable;
 a missing target is `None`). Drawing and the redraw callback are not part of
 this model; running an item's action is logged, its effect is foreign.
 */
module Menu {
  import opened Types

  /** Items visible at once in a scrolling menu. */
  const VisibleItems: nat := 3
  /** The menu closes after this many milliseconds without a key. */
  const DefaultTimeoutMs: nat := 30000

  /** The baud rates an editor cycles through, in order. */
  const BaudRates: seq<nat> := [9600, 19200, 38400, 57600, 115200]

  datatype Kind =
    | Action(action: Option<Handler>)
    | Submenu(action: Option<Handler>)
    | Back
    | Toggle(flag: Option<bool>)
    | Value(value: Option<int>, minValue: int, maxValue: int)
    | Text
    | Exit
    | Baudrate(rate: Option<nat>)
    | HexByte(byte: Option<bv8>, editPosition: int)

  datatype Item = Item(text: string, kind: Kind)

  datatype MenuPage = MenuPage(
    title: string,
    items: seq<Item>,
    parent: Option<nat>,
    selection: nat,
    scroll: nat,
    scrolling: bool)

  /** A run of an item's action: the menu and the item. */
  datatype Run = Run(menu: nat, item: nat)

  datatype Manager = Manager(
    menus: seq<MenuPage>,
    current: Option<nat>,
    root: Option<nat>,
    active: bool,
    timeoutStart: nat,
    timeoutDuration: nat,
    onExit: Option<Handler>,
    exits: seq<Notice<bool>>,
    runs: seq<Run>)

  /** Every menu reference points into the store. */
  predicate Valid(m: Manager) {
    && (m.current.Some? ==> m.current.value < |m.menus|)
    && (m.root.Some? ==> m.root.value < |m.menus|)
    && StoreValid(m.menus)
  }

  /** Every parent link points into the store. */
  predicate StoreValid(menus: seq<MenuPage>) {
    forall i :: 0 <= i < |menus| && menus[i].parent.Some? ==> menus[i].parent.value < |menus|
  }

  /** The selected item stays inside the three-line window. */
  predicate InWindow(p: MenuPage) {
    p.scroll <= p.selection < p.scroll + VisibleItems
  }

  /** The constructor: no menu, inactive, 30-second timeout. */
  function Init(menus: seq<MenuPage>): (m: Manager)
    requires StoreValid(menus)
    ensures !m.active && m.current.None? && m.root.None? && m.timeoutDuration == DefaultTimeoutMs
    ensures m.exits == [] && m.runs == []
    ensures Valid(m)
  {
    Manager(menus, None, None, false, 0, DefaultTimeoutMs, None, [], [])
  }

  // Hex-byte editing -----------------------------------------------------

  function High(v: bv8): nat {
    (v >> 4) as nat
  }

  function Low(v: bv8): nat {
    (v & 0x0F) as nat
  }

  /** Up and Select on a hex byte: the edited nibble (high at position 0,
      low otherwise) goes up by one modulo 16. */
  function NibbleUp(v: bv8, position: int): (r: bv8)
    ensures position == 0 ==> High(r) == (High(v) + 1) % 16 && Low(r) == Low(v)
    ensures position != 0 ==> Low(r) == (Low(v) + 1) % 16 && High(r) == High(v)
  {
    if position == 0 then (v & 0x0F) | (((((v >> 4) & 0x0F) + 1) & 0x0F) << 4)
    else (v & 0xF0) | (((v & 0x0F) + 1) & 0x0F)
  }

  /** Down on a hex byte: the edited nibble goes down by one, 0 wrapping to F. */
  function NibbleDown(v: bv8, position: int): (r: bv8)
    ensures position == 0 ==> High(r) == (if High(v) == 0 then 15 else High(v) - 1) && Low(r) == Low(v)
    ensures position != 0 ==> Low(r) == (if Low(v) == 0 then 15 else Low(v) - 1) && High(r) == High(v)
  {
    var nibble := if position == 0 then (v >> 4) & 0x0F else v & 0x0F;
    var next := if nibble == 0 then 0x0F else nibble - 1;
    if position == 0 then (v & 0x0F) | (next << 4) else (v & 0xF0) | next
  }

  /** Down undoes Up, and Up undoes Down. */
  lemma NibbleRoundTrip(v: bv8, position: int)
    ensures NibbleDown(NibbleUp(v, position), position) == v
    ensures NibbleUp(NibbleDown(v, position), position) == v
  {
    DownAfterUp(v, position);
    UpAfterDown(v, position);
  }

  lemma DownAfterUp(v: bv8, position: int)
    ensures NibbleDown(NibbleUp(v, position), position) == v
  {
    var d := NibbleDown(NibbleUp(v, position), position);
    assert High(d) == High(v) && Low(d) == Low(v);
    NibblesDetermine(d, v);
  }

  lemma UpAfterDown(v: bv8, position: int)
    ensures NibbleUp(NibbleDown(v, position), position) == v
  {
    var u := NibbleUp(NibbleDown(v, position), position);
    assert High(u) == High(v) && Low(u) == Low(v);
    NibblesDetermine(u, v);
  }

  /** A byte is its two nibbles. */
  lemma NibblesDetermine(a: bv8, b: bv8)
    ensures High(a) == High(b) && Low(a) == Low(b) ==> a == b
  {
  }

  // Baud-rate editing ----------------------------------------------------

  /** The position of a rate in the list, or -1. */
  function BaudIndex(rate: nat): (r: int)
    ensures -1 <= r < |BaudRates|
    ensures r >= 0 ==> BaudRates[r] == rate
    ensures r == -1 <==> rate !in BaudRates
  {
    if rate == 9600 then 0
    else if rate == 19200 then 1
    else if rate == 38400 then 2
    else if rate == 57600 then 3
    else if rate == 115200 then 4
    else -1
  }

  /** Left: the previous rate; the first rate and unlisted rates give the
      last one. */
  function BaudLeft(rate: nat): (r: nat)
    ensures r in BaudRates
    ensures BaudIndex(rate) > 0 ==> r == BaudRates[BaudIndex(rate) - 1]
    ensures BaudIndex(rate) <= 0 ==> r == 115200
  {
    var i := BaudIndex(rate);
    if i > 0 then BaudRates[i - 1] else BaudRates[4]
  }

  /** Right: the next rate; the last rate and unlisted rates give the first. */
  function BaudRight(rate: nat): (r: nat)
    ensures r in BaudRates
    ensures 0 <= BaudIndex(rate) < 4 ==> r == BaudRates[BaudIndex(rate) + 1]
    ensures BaudIndex(rate) == -1 || BaudIndex(rate) == 4 ==> r == 9600
  {
    var i := BaudIndex(rate);
    if 0 <= i < 4 then BaudRates[i + 1] else BaudRates[0]
  }

  /** On listed rates Left and Right are inverse cycles. */
  lemma BaudRoundTrip(rate: nat)
    requires rate in BaudRates
    ensures BaudLeft(BaudRight(rate)) == rate && BaudRight(BaudLeft(rate)) == rate
  {
  }

  /** Five steps in either direction come back to a listed rate. */
  lemma BaudCycle(rate: nat)
    requires rate in BaudRates
    ensures BaudRight(BaudRight(BaudRight(BaudRight(BaudRight(rate))))) == rate
  {
  }

  // Value and toggle items -----------------------------------------------

  /** Select on a VALUE item: one up, wrapping to the minimum past the
      maximum. */
  function ValueNext(v: int, minValue: int, maxValue: int): (r: int)
    ensures v + 1 <= maxValue ==> r == v + 1
    ensures v + 1 > maxValue ==> r == minValue
    ensures minValue <= v <= maxValue ==> minValue <= r <= maxValue
  {
    if v + 1 > maxValue then minValue else v + 1
  }

  // Navigation -------------------------------------------------------------

  /** `updateScrollPosition`: the window moves just enough to show the
      selection; non-scrolling menus are left alone. */
  function UpdateScroll(p: MenuPage): (r: MenuPage)
    ensures p.scrolling ==> InWindow(r)
    ensures p.scrolling && InWindow(p) ==> r == p
    ensures !p.scrolling ==> r == p
    ensures r.(scroll := p.scroll) == p
  {
    if !p.scrolling then p
    else if p.selection < p.scroll then p.(scroll := p.selection)
    else if p.selection >= p.scroll + VisibleItems then p.(scroll := p.selection - VisibleItems + 1)
    else p
  }

  /** The item `getCurrentItem` returns, when the selection is in range. */
  function CurrentItem(p: MenuPage): Option<Item> {
    if p.selection < |p.items| then Some(p.items[p.selection]) else None
  }

  /** Whether the selected item is a hex byte with a bound value. */
  predicate EditingHex(p: MenuPage) {
    CurrentItem(p).Some? && CurrentItem(p).value.kind.HexByte? && CurrentItem(p).value.kind.byte.Some?
  }

  function SetCurrentKind(p: MenuPage, k: Kind): (r: MenuPage)
    requires p.selection < |p.items|
    ensures |r.items| == |p.items| && r.items[p.selection].kind == k
    ensures r.selection == p.selection && r.scroll == p.scroll && r.parent == p.parent
  {
    p.(items := p.items[p.selection := p.items[p.selection].(kind := k)])
  }

  /** `navigateUp` on one menu. */
  function PageUp(p: MenuPage): (r: MenuPage)
    ensures |p.items| == 0 ==> r == p
    ensures |p.items| > 0 && !EditingHex(p) && p.selection > 0 ==> r.selection == p.selection - 1
    ensures |p.items| > 0 && !EditingHex(p) && p.selection == 0 ==>
              r.selection == |p.items| - 1
              && (p.scrolling ==> r.scroll == (if |p.items| > VisibleItems then |p.items| - VisibleItems else 0))
    ensures |p.items| > 0 && !EditingHex(p) && p.scrolling ==> InWindow(r)
    ensures |r.items| == |p.items| && r.parent == p.parent
  {
    if |p.items| == 0 then p
    else if EditingHex(p) then
      var k := p.items[p.selection].kind;
      SetCurrentKind(p, k.(byte := Some(NibbleUp(k.byte.value, k.editPosition))))
    else if p.selection > 0 then UpdateScroll(p.(selection := p.selection - 1))
    else
      var last := |p.items| - 1;
      if p.scrolling then p.(selection := last, scroll := if |p.items| > VisibleItems then |p.items| - VisibleItems else 0)
      else p.(selection := last)
  }

  /** `navigateDown` on one menu. */
  function PageDown(p: MenuPage): (r: MenuPage)
    ensures |p.items| == 0 ==> r == p
    ensures |p.items| > 0 && !EditingHex(p) && p.selection < |p.items| - 1 ==> r.selection == p.selection + 1
    ensures |p.items| > 0 && !EditingHex(p) && p.selection >= |p.items| - 1 ==> r.selection == 0 && r.scroll == 0
    ensures |p.items| > 0 && !EditingHex(p) && p.scrolling ==> InWindow(r)
    ensures |r.items| == |p.items| && r.parent == p.parent
  {
    if |p.items| == 0 then p
    else if EditingHex(p) then
      var k := p.items[p.selection].kind;
      SetCurrentKind(p, k.(byte := Some(NibbleDown(k.byte.value, k.editPosition))))
    else if p.selection < |p.items| - 1 then UpdateScroll(p.(selection := p.selection + 1))
    else p.(selection := 0, scroll := 0)
  }

  /** `navigateLeft`/`navigateRight` on one menu: a bound baud rate steps
      through the list; a bound hex byte moves the edit cursor. */
  function PageSide(p: MenuPage, right: bool): (r: MenuPage)
    ensures r.selection == p.selection && r.scroll == p.scroll && |r.items| == |p.items| && r.parent == p.parent
    ensures CurrentItem(p).None? ==> r == p
    ensures CurrentItem(p).Some? && CurrentItem(p).value.kind.Baudrate? && CurrentItem(p).value.kind.rate.Some? ==>
              r.items[p.selection].kind.Baudrate?
              && r.items[p.selection].kind.rate
                 == Some(if right then BaudRight(CurrentItem(p).value.kind.rate.value) else BaudLeft(CurrentItem(p).value.kind.rate.value))
    ensures EditingHex(p) ==>
              r.items[p.selection].kind.HexByte?
              && r.items[p.selection].kind.byte == CurrentItem(p).value.kind.byte
              && r.items[p.selection].kind.editPosition == (if CurrentItem(p).value.kind.editPosition == 0 then 1 else 0)
  {
    match CurrentItem(p)
    case None => p
    case Some(item) =>
      match item.kind
      case Baudrate(Some(rate)) => SetCurrentKind(p, Baudrate(Some(if right then BaudRight(rate) else BaudLeft(rate))))
      case HexByte(Some(b), pos) => SetCurrentKind(p, HexByte(Some(b), if pos == 0 then 1 else 0))
      case _ => p
  }

  function UpdatePage(m: Manager, i: nat, p: MenuPage): (r: Manager)
    requires i < |m.menus|
    requires Valid(m) && (p.parent.Some? ==> p.parent.value < |m.menus|)
    ensures Valid(r) && |r.menus| == |m.menus| && r.menus[i] == p
    ensures r.(menus := m.menus) == m
  {
    m.(menus := m.menus[i := p])
  }

  /** `hideMenu`: inactive, no current menu, and the exit callback fired. */
  function HideMenu(m: Manager): (r: Manager)
    ensures !r.active && r.current.None?
    ensures r.exits == m.exits + Deliver(m.onExit, true)
    ensures r.menus == m.menus && r.runs == m.runs
    ensures Valid(m) ==> Valid(r)
  {
    m.(active := false, current := None, exits := m.exits + Deliver(m.onExit, true))
  }

  /** `returnToParent`: the parent becomes current, keeping its own
      selection. */
  function ReturnToParent(m: Manager, now: nat): (r: Manager)
    requires Valid(m)
    ensures m.current.Some? && m.menus[m.current.value].parent.Some? ==>
              r.current == m.menus[m.current.value].parent && r.timeoutStart == now && r.menus == m.menus
    ensures !(m.current.Some? && m.menus[m.current.value].parent.Some?) ==> r == m
    ensures Valid(r)
  {
    if m.current.Some? && m.menus[m.current.value].parent.Some? then
      m.(current := m.menus[m.current.value].parent, timeoutStart := now)
    else m
  }

  /** `goBack`: to the parent if there is one, else leave the menu system. */
  function GoBack(m: Manager, now: nat): (r: Manager)
    requires Valid(m)
    ensures m.current.Some? && m.menus[m.current.value].parent.Some? ==> r.active == m.active && r.current == m.menus[m.current.value].parent
    ensures !(m.current.Some? && m.menus[m.current.value].parent.Some?) ==> !r.active && r.current.None?
    ensures Valid(r) && r.menus == m.menus
  {
    if m.current.Some? && m.menus[m.current.value].parent.Some? then ReturnToParent(m, now) else HideMenu(m)
  }

  /** `openSubmenu`: a missing submenu, an inactive manager or an empty
      submenu is refused; otherwise the submenu records the current menu as
      its parent, becomes current, and starts at its first item. */
  function OpenSubmenu(m: Manager, sub: Option<nat>, now: nat): (r: Manager)
    requires Valid(m) && (sub.Some? ==> sub.value < |m.menus|)
    ensures Valid(r) && |r.menus| == |m.menus|
    ensures sub.None? || !m.active || |m.menus[sub.value].items| == 0 ==> r == m
    ensures sub.Some? && m.active && |m.menus[sub.value].items| > 0 ==>
              && r.current == sub
              && r.menus[sub.value].parent == m.current
              && r.menus[sub.value].selection == 0 && r.menus[sub.value].scroll == 0
              && r.menus[sub.value].items == m.menus[sub.value].items
              && r.timeoutStart == now && r.active
  {
    if sub.None? || !m.active || |m.menus[sub.value].items| == 0 then m
    else
      var s := sub.value;
      var page := m.menus[s].(parent := m.current, selection := 0, scroll := 0);
      UpdatePage(m, s, page).(current := sub, timeoutStart := now)
  }

  /** `showMenu`: the given menu, else the root; nothing without either.
      The shown menu starts at its first item. */
  function ShowMenu(m: Manager, menu: Option<nat>, now: nat): (r: Manager)
    requires Valid(m) && (menu.Some? ==> menu.value < |m.menus|)
    ensures Valid(r)
    ensures menu.None? && m.root.None? ==> r == m
    ensures menu.Some? || m.root.Some? ==>
              r.active && r.current == (if menu.Some? then menu else m.root) && r.timeoutStart == now
              && r.menus[r.current.value].selection == 0 && r.menus[r.current.value].scroll == 0
  {
    if menu.None? && m.root.None? then m
    else
      var shown := if menu.Some? then menu.value else m.root.value;
      var page := m.menus[shown].(selection := 0, scroll := 0);
      UpdatePage(m, shown, page).(current := Some(shown), active := true, timeoutStart := now)
  }

  /** `setRootMenu`. */
  function SetRootMenu(m: Manager, menu: Option<nat>): (r: Manager)
    requires Valid(m) && (menu.Some? ==> menu.value < |m.menus|)
    ensures r.root == menu && r.(root := m.root) == m && Valid(r)
  {
    m.(root := menu)
  }

  /** `selectItem` on the current menu. */
  function SelectItem(m: Manager, now: nat): (r: Manager)
    requires Valid(m) && m.current.Some?
    ensures Valid(r)
    ensures |m.menus[m.current.value].items| == 0 ==> r == m
    ensures |r.menus| == |m.menus| && |r.menus[m.current.value].items| == |m.menus[m.current.value].items|
    ensures var p := m.menus[m.current.value];
            |p.items| > 0 && CurrentItem(p).Some? ==>
              match CurrentItem(p).value.kind
              case Action(act) => r.runs == m.runs + (if act.Some? then [Run(m.current.value, p.selection)] else []) && r.menus == m.menus
              case Submenu(act) => r.runs == m.runs + (if act.Some? then [Run(m.current.value, p.selection)] else []) && r.menus == m.menus
              case Exit => !r.active && r.current.None? && r.exits == m.exits + Deliver(m.onExit, true)
              case Toggle(flag) => r.runs == m.runs && r.menus[m.current.value].items[p.selection].kind == Toggle(if flag.Some? then Some(!flag.value) else None)
              case Value(v, lo, hi) => r.runs == m.runs && r.menus[m.current.value].items[p.selection].kind == Value(if v.Some? then Some(ValueNext(v.value, lo, hi)) else None, lo, hi)
              case HexByte(b, pos) => r.runs == m.runs && r.menus[m.current.value].items[p.selection].kind == HexByte(if b.Some? then Some(NibbleUp(b.value, pos)) else None, pos)
              case _ => r.runs == m.runs
  {
    var c := m.current.value;
    var p := m.menus[c];
    if |p.items| == 0 then m
    else
      var m1 := m.(timeoutStart := now);
      match CurrentItem(p)
      case None => m1
      case Some(item) =>
        match item.kind
        case Action(act) => if act.Some? then m1.(runs := m1.runs + [Run(c, p.selection)]) else m1
        case Submenu(act) => if act.Some? then m1.(runs := m1.runs + [Run(c, p.selection)]) else m1
        case Back => GoBack(m1, now)
        case Exit => HideMenu(m1)
        case Toggle(flag) =>
          if flag.Some? then UpdatePage(m1, c, SetCurrentKind(p, Toggle(Some(!flag.value)))) else m1
        case Value(v, lo, hi) =>
          if v.Some? then UpdatePage(m1, c, SetCurrentKind(p, Value(Some(ValueNext(v.value, lo, hi)), lo, hi))) else m1
        case Baudrate(_) => m1
        case HexByte(b, pos) =>
          if b.Some? then UpdatePage(m1, c, SetCurrentKind(p, HexByte(Some(NibbleUp(b.value, pos)), pos))) else m1
        case Text => m1
  }

  /** `handleKeyPress`: nothing while inactive or without a current menu;
      otherwise the timeout restarts and the key is dispatched. */
  function HandleKeyPress(m: Manager, key: char, now: nat): (r: Manager)
    requires Valid(m)
    ensures !m.active || m.current.None? ==> r == m
    ensures m.active && m.current.Some? && key in "UDLR" ==>
              r.active && r.current == m.current && r.timeoutStart == now
    ensures m.active && m.current.Some? && key !in "UDLRSM" ==> r == m.(timeoutStart := now)
    ensures m.active && m.current.Some? && key in "UDLR" ==>
              var c := m.current.value;
              var p := m.menus[c];
              r == m.(timeoutStart := now, menus := m.menus[c := match key
                                                              case 'U' => PageUp(p)
                                                              case 'D' => PageDown(p)
                                                              case 'L' => PageSide(p, false)
                                                              case _ => PageSide(p, true)])
    ensures m.active && m.current.Some? && key == 'S' ==> r == SelectItem(m.(timeoutStart := now), now)
    ensures m.active && m.current.Some? && key == 'M' ==> r == GoBack(m.(timeoutStart := now), now)
    ensures Valid(r)
  {
    if !m.active || m.current.None? then m
    else
      var c := m.current.value;
      var m1 := m.(timeoutStart := now);
      var p := m.menus[c];
      if key == 'U' then UpdatePage(m1, c, PageUp(p))
      else if key == 'D' then UpdatePage(m1, c, PageDown(p))
      else if key == 'L' then UpdatePage(m1, c, PageSide(p, false))
      else if key == 'R' then UpdatePage(m1, c, PageSide(p, true))
      else if key == 'S' then SelectItem(m1, now)
      else if key == 'M' then GoBack(m1, now)
      else m1
  }

  /** `checkTimeout`: leave the menu system iff active, a timeout is set and
      it has elapsed. */
  function CheckTimeout(m: Manager, now: nat): (r: Manager)
    ensures m.active && m.timeoutDuration > 0 && Since(now, m.timeoutStart) >= m.timeoutDuration ==>
              !r.active && r.current.None? && r.exits == m.exits + Deliver(m.onExit, true)
    ensures !(m.active && m.timeoutDuration > 0 && Since(now, m.timeoutStart) >= m.timeoutDuration) ==> r == m
    ensures Valid(m) ==> Valid(r)
  {
    if m.active && m.timeoutDuration > 0 && Since(now, m.timeoutStart) >= m.timeoutDuration then HideMenu(m) else m
  }

  /** Opening a submenu and going back returns to the menu it was opened
      from, still active. */
  lemma OpenThenBack(m: Manager, sub: nat, now: nat, later: nat)
    requires Valid(m) && sub < |m.menus| && m.active && m.current.Some? && |m.menus[sub].items| > 0
    ensures GoBack(OpenSubmenu(m, Some(sub), now), later).current == m.current
    ensures GoBack(OpenSubmenu(m, Some(sub), now), later).active
  {
  }

  /** Toggling twice restores the flag. */
  lemma ToggleTwice(m: Manager, now: nat)
    requires Valid(m) && m.current.Some?
    requires CurrentItem(m.menus[m.current.value]).Some?
    requires CurrentItem(m.menus[m.current.value]).value.kind.Toggle?
    requires CurrentItem(m.menus[m.current.value]).value.kind.flag.Some?
    ensures SelectItem(SelectItem(m, now), now).menus == m.menus
  {
    var c := m.current.value;
    var p := m.menus[c];
    var once := SelectItem(m, now);
    assert once.menus[c] == SetCurrentKind(p, Toggle(Some(!p.items[p.selection].kind.flag.value)));
    assert once.menus[c].items[p.selection].kind.flag == Some(!p.items[p.selection].kind.flag.value);
    assert SelectItem(once, now).menus[c].items == p.items;
    assert SelectItem(once, now).menus[c] == p;
  }
}
