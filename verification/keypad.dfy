/**
 The key handling of the core application: the S+M factory-reset combo
 (`updateKeyPad`, `checkFactoryResetCombo`), the reset confirmation dialog
 and the routing of released keys to the legacy menu (`onKeyRelease`). The
 display mode is shared with the menu, so the keypad state holds the menu.
 The menu engine of the `Menu` module is never shown by this firmware, so
 keys always reach the legacy menu.
 */
module Keypad {
  import opened Types
  import ViewModel
  import LegacyMenu

  /** How long S and M must be held together. */
  const FactoryResetHoldMs: nat := 5000

  const ComboText: string := "Reset combo..."
  const StartedText: string := "Started"
  const ConfirmText: string := "Confirm reset?"
  const FactoryResetText: string := "Factory Reset"
  const FactoryErrorText: string := "Factory Error"
  const BootErrorText: string := "Boot Error"
  const RestartingText: string := "Restarting..."

  /** A key as the keypad scan reports it. */
  datatype KeyState = Idle | Pressed | Hold | Released
  datatype KeyReport = KeyReport(key: char, state: KeyState, changed: bool)

  /** The confirmation dialog's two buttons. */
  datatype Choice = Cancel | Confirm

  /** What the flash offers a factory reset, a fixed fact of the device: no
      factory application partition, one the bootloader refuses to boot, or
      one it switches to. */
  datatype FlashLayout = NoFactoryPartition | BootSwitchFails | FactoryBootable

  datatype Keypad = Keypad(
    menu: LegacyMenu.LegacyMenu,
    comboPressed: bool,
    comboStart: nat,
    choice: Choice,
    ignoreNextS: bool,
    ignoreNextM: bool,
    resetRequested: bool,
    vm: ViewModel.Model,
    flash: FlashLayout,
    restarting: bool)

  function Init(menu: LegacyMenu.LegacyMenu, vm: ViewModel.Model, flash: FlashLayout): (k: Keypad)
    ensures !k.comboPressed && k.choice == Cancel && !k.ignoreNextS && !k.ignoreNextM && !k.resetRequested
    ensures !k.restarting && k.flash == flash
  {
    Keypad(menu, false, 0, Cancel, false, false, false, vm, flash, false)
  }

  function Mode(k: Keypad): DisplayMode {
    k.menu.mode
  }

  function SetStatus(k: Keypad, text: string): (r: Keypad)
    ensures r.(vm := k.vm) == k
    ensures r.vm == ViewModel.SetStatusString(k.vm, Some(text))
  {
    k.(vm := ViewModel.SetStatusString(k.vm, Some(text)))
  }

  /** The model after `setStatusString` of each label in turn. */
  function ShowAll(vm: ViewModel.Model, labels: seq<string>): ViewModel.Model
    decreases |labels|
  {
    if |labels| == 0 then vm else ShowAll(ViewModel.SetStatusString(vm, Some(labels[0])), labels[1..])
  }

  lemma ShowThree(vm: ViewModel.Model, a: string, b: string, c: string)
    ensures ShowAll(vm, [a, b, c]) ==
            ViewModel.SetStatusString(ViewModel.SetStatusString(ViewModel.SetStatusString(vm, Some(a)), Some(b)), Some(c))
  {
    var v1 := ViewModel.SetStatusString(vm, Some(a));
    assert [a, b, c][1..] == [b, c];
    ShowTwo(v1, b, c);
  }

  lemma ShowTwo(vm: ViewModel.Model, a: string, b: string)
    ensures ShowAll(vm, [a, b]) == ViewModel.SetStatusString(ViewModel.SetStatusString(vm, Some(a)), Some(b))
  {
    var v1 := ViewModel.SetStatusString(vm, Some(a));
    assert [a, b][1..] == [b];
    assert ShowAll(v1, [b]) == ShowAll(ViewModel.SetStatusString(v1, Some(b)), []);
  }

  /** The labels a factory reset shows, in order: the announcement, then
      either the error and "Started" again, or the restart notice. */
  function ResetLabels(flash: FlashLayout): (r: seq<string>)
    ensures |r| >= 2 && r[0] == FactoryResetText
    ensures flash != FactoryBootable <==> |r| == 3 && r[2] == StartedText
    ensures flash == NoFactoryPartition ==> r[1] == FactoryErrorText
    ensures flash == BootSwitchFails ==> r[1] == BootErrorText
    ensures flash == FactoryBootable ==> r == [FactoryResetText, RestartingText]
  {
    match flash
    case NoFactoryPartition => [FactoryResetText, FactoryErrorText, StartedText]
    case BootSwitchFails => [FactoryResetText, BootErrorText, StartedText]
    case FactoryBootable => [FactoryResetText, RestartingText]
  }

  /** `performFactoryReset`: announce the reset; without a factory partition,
      or when the bootloader refuses it, show the error and then "Started"
      again and carry on; otherwise show "Restarting..." and restart into
      the factory image. */
  function PerformFactoryReset(k: Keypad): (r: Keypad)
    ensures r.vm == ShowAll(k.vm, ResetLabels(k.flash))
    ensures r.restarting <==> k.restarting || k.flash == FactoryBootable
    ensures k.flash != FactoryBootable ==> r.vm.status == StartedText
    ensures k.flash == FactoryBootable ==> r.vm.status == RestartingText
    ensures r.(vm := k.vm, restarting := k.restarting) == k
  {
    var k1 := SetStatus(k, FactoryResetText);
    match k.flash
    case NoFactoryPartition =>
      ShowThree(k.vm, FactoryResetText, FactoryErrorText, StartedText);
      SetStatus(SetStatus(k1, FactoryErrorText), StartedText)
    case BootSwitchFails =>
      ShowThree(k.vm, FactoryResetText, BootErrorText, StartedText);
      SetStatus(SetStatus(k1, BootErrorText), StartedText)
    case FactoryBootable =>
      ShowTwo(k.vm, FactoryResetText, RestartingText);
      SetStatus(k1, RestartingText).(restarting := true)
  }

  /** Whether the key counts as held down in this scan. */
  predicate Active(r: KeyReport) {
    r.state == Pressed || r.state == Hold
  }

  /** Some report in the scan has `key` held down. */
  predicate AnyActive(reports: seq<KeyReport>, key: char) {
    exists i :: 0 <= i < |reports| && reports[i].key == key && Active(reports[i])
  }

  /** `onKeyRelease` in the confirmation dialog: the first release of S and
      of M after the dialog opened is swallowed; Left/Up choose Cancel and
      Right/Down Confirm; Select acts on the choice; Menu cancels. */
  function ConfirmRelease(k: Keypad, key: char): (r: Keypad)
    requires Mode(k) == FactoryResetConfirm
    ensures r.menu.(mode := Mode(k)) == k.menu
    ensures r.resetRequested <==> k.resetRequested || (key == 'S' && !k.ignoreNextS && k.choice == Confirm)
    ensures key == 'S' && k.ignoreNextS ==> r == k.(ignoreNextS := false)
    ensures key == 'M' && k.ignoreNextM ==> r == k.(ignoreNextM := false)
    ensures key == 'L' || key == 'U' ==> r == k.(choice := Cancel)
    ensures key == 'R' || key == 'D' ==> r == k.(choice := Confirm)
    ensures (key == 'S' && !k.ignoreNextS) || (key == 'M' && !k.ignoreNextM) ==> Mode(r) == Normal
    ensures !(key == 'S' && !k.ignoreNextS) && !(key == 'M' && !k.ignoreNextM) ==> Mode(r) == FactoryResetConfirm
  {
    if (key == 'S' && !k.ignoreNextS) || (key == 'M' && !k.ignoreNextM) then CloseDialog(k, key)
    else Navigate(k, key)
  }

  /** The dialog keys that neither close it nor act: a swallowed release
      or a move between the buttons. */
  function Navigate(k: Keypad, key: char): (r: Keypad)
    ensures r.menu == k.menu && r.resetRequested == k.resetRequested
    ensures key == 'S' && k.ignoreNextS ==> r == k.(ignoreNextS := false)
    ensures key == 'M' && k.ignoreNextM ==> r == k.(ignoreNextM := false)
    ensures key == 'L' || key == 'U' ==> r == k.(choice := Cancel)
    ensures key == 'R' || key == 'D' ==> r == k.(choice := Confirm)
    ensures key !in "LURD" && !(key == 'S' && k.ignoreNextS) && !(key == 'M' && k.ignoreNextM) ==> r == k
  {
    if key == 'S' && k.ignoreNextS then k.(ignoreNextS := false)
    else if key == 'M' && k.ignoreNextM then k.(ignoreNextM := false)
    else if key == 'L' || key == 'U' then k.(choice := Cancel)
    else if key == 'R' || key == 'D' then k.(choice := Confirm)
    else k
  }

  /** Select and Menu close the dialog: Select on Confirm performs the
      reset, anything else shows "Started" again. Other keys do nothing. */
  function CloseDialog(k: Keypad, key: char): (r: Keypad)
    ensures key != 'S' && key != 'M' ==> r == k
    ensures key == 'S' || key == 'M' ==> r.menu == k.menu.(mode := Normal)
    ensures r.resetRequested <==> k.resetRequested || (key == 'S' && k.choice == Confirm)
    ensures (key == 'S' && k.choice != Confirm) || key == 'M' ==> r.vm == ViewModel.SetStatusString(k.vm, Some(StartedText))
    ensures key == 'S' && k.choice == Confirm ==>
              && r.vm == ShowAll(k.vm, ResetLabels(k.flash))
              && (r.restarting <==> k.restarting || k.flash == FactoryBootable)
    ensures !(key == 'S' && k.choice == Confirm) ==> r.restarting == k.restarting
    ensures r.(menu := k.menu, resetRequested := k.resetRequested, vm := k.vm, restarting := k.restarting) == k
  {
    if key == 'S' then
      var k1 := k.(menu := k.menu.(mode := Normal));
      if k.choice == Confirm then PerformFactoryReset(k1.(resetRequested := true)) else SetStatus(k1, StartedText)
    else if key == 'M' then SetStatus(k.(menu := k.menu.(mode := Normal)), StartedText)
    else k
  }

  /** `onKeyRelease` outside the dialog: Menu opens the menu from the normal
      display; in the menu, S, M, D, U and R go to the menu; Left is never
      passed on. */
  function NormalRelease(k: Keypad, key: char, now: nat): (r: Keypad)
    requires Mode(k) != FactoryResetConfirm
    ensures key == 'M' && Mode(k) == Normal ==>
              Mode(r) == MenuMode && r.menu == LegacyMenu.StartTimeout(k.menu.(mode := MenuMode), now)
    ensures key in "SMDUR" && Mode(k) == MenuMode ==> r.menu == LegacyMenu.HandleKey(k.menu, key, now)
    ensures key !in "SMDUR" || (Mode(k) == Normal && key != 'M') ==> r == k
    ensures r.(menu := k.menu) == k
    ensures Mode(r) != FactoryResetConfirm
  {
    if key == 'M' && Mode(k) == Normal then k.(menu := LegacyMenu.StartTimeout(k.menu.(mode := MenuMode), now))
    else if key in "SMDUR" && Mode(k) == MenuMode then k.(menu := LegacyMenu.HandleKey(k.menu, key, now))
    else k
  }

  /** `onKeyRelease`. */
  function OnKeyRelease(k: Keypad, key: char, now: nat): (r: Keypad)
    ensures Mode(k) == FactoryResetConfirm ==> r.menu.(mode := Mode(k)) == k.menu
    ensures r.resetRequested <==> k.resetRequested || (Mode(k) == FactoryResetConfirm && key == 'S' && !k.ignoreNextS && k.choice == Confirm)
    ensures r.comboPressed == k.comboPressed && r.comboStart == k.comboStart
  {
    if Mode(k) == FactoryResetConfirm then ConfirmRelease(k, key) else NormalRelease(k, key, now)
  }

  /** The releases of one scan, in scan order. */
  function Releases(k: Keypad, reports: seq<KeyReport>, now: nat): (r: Keypad)
    ensures r.comboPressed == k.comboPressed && r.comboStart == k.comboStart
    decreases |reports|
  {
    if |reports| == 0 then k
    else
      var head := reports[0];
      var k1 := if head.changed && head.state == Released then OnKeyRelease(k, head.key, now) else k;
      Releases(k1, reports[1..], now)
  }

  /** Whether the scan saw any change (the keypad's `getKeys`). */
  predicate AnyChange(reports: seq<KeyReport>) {
    exists i :: 0 <= i < |reports| && reports[i].changed
  }

  /** The combo tracking at the end of a scan: S and M both held start the
      hold timer once; losing either cancels it. There is no tracking while
      the dialog is up. */
  function TrackCombo(k: Keypad, both: bool, now: nat): (r: Keypad)
    ensures Mode(k) == FactoryResetConfirm ==> r == k
    ensures Mode(k) != FactoryResetConfirm && both && !k.comboPressed ==> r.comboPressed && r.comboStart == now
    ensures Mode(k) != FactoryResetConfirm && both && k.comboPressed ==> r == k
    ensures Mode(k) != FactoryResetConfirm && !both ==> !r.comboPressed && r.comboStart == k.comboStart
    ensures r.menu == k.menu && r.resetRequested == k.resetRequested
  {
    if Mode(k) == FactoryResetConfirm then k
    else if both && !k.comboPressed then SetStatus(k.(comboPressed := true, comboStart := now), ComboText)
    else if !both && k.comboPressed then SetStatus(k.(comboPressed := false), StartedText)
    else k
  }

  /** `updateKeyPad`: nothing unless some key changed; otherwise the
      releases are handled in scan order, then the combo is tracked. */
  function UpdateKeyPad(k: Keypad, reports: seq<KeyReport>, now: nat): (r: Keypad)
    ensures !AnyChange(reports) ==> r == k
  {
    if !AnyChange(reports) then k
    else
      var k1 := Releases(k, reports, now);
      TrackCombo(k1, AnyActive(reports, 'S') && AnyActive(reports, 'M'), now)
  }

  /** `checkFactoryResetCombo`: after a hold of at least five seconds the
      confirmation dialog opens on Cancel and ignores the releases of the
      keys still held. */
  function CheckFactoryResetCombo(k: Keypad, now: nat): (r: Keypad)
    ensures k.comboPressed && Since(now, k.comboStart) >= FactoryResetHoldMs ==>
              && Mode(r) == FactoryResetConfirm && r.choice == Cancel
              && r.ignoreNextS && r.ignoreNextM && !r.comboPressed
              && r.vm == ViewModel.SetStatusString(k.vm, Some(ConfirmText))
    ensures !(k.comboPressed && Since(now, k.comboStart) >= FactoryResetHoldMs) ==> r == k
    ensures r.resetRequested == k.resetRequested
  {
    if k.comboPressed && Since(now, k.comboStart) >= FactoryResetHoldMs then
      SetStatus(k.(comboPressed := false, menu := k.menu.(mode := FactoryResetConfirm), choice := Cancel,
                   ignoreNextS := true, ignoreNextM := true), ConfirmText)
    else k
  }

  /** One pass of the core loop's key handling. */
  function CoreLoop(k: Keypad, reports: seq<KeyReport>, now: nat): Keypad {
    CheckFactoryResetCombo(UpdateKeyPad(k, reports, now), now)
  }

  /** The releases of a scan can request a reset only in the dialog. */
  lemma {:induction false} ReleasesNeedDialog(k: Keypad, reports: seq<KeyReport>, now: nat)
    ensures Releases(k, reports, now).resetRequested && !k.resetRequested ==> Mode(k) == FactoryResetConfirm
    decreases |reports|
  {
    if |reports| > 0 {
      var head := reports[0];
      var k1 := if head.changed && head.state == Released then OnKeyRelease(k, head.key, now) else k;
      ReleasesNeedDialog(k1, reports[1..], now);
    }
  }

  /** A reset is requested only from the dialog, so only after a five-second
      hold opened it. */
  lemma ResetOnlyFromDialog(k: Keypad, reports: seq<KeyReport>, now: nat)
    requires !k.resetRequested && Mode(k) != FactoryResetConfirm
    ensures !UpdateKeyPad(k, reports, now).resetRequested
    ensures !CoreLoop(k, reports, now).resetRequested
  {
    if AnyChange(reports) {
      ReleasesNeedDialog(k, reports, now);
    }
  }

  /** The whole gesture: hold S and M for five seconds, let go of both (the
      releases are swallowed), press Down, then Select performs the reset,
      which restarts the device exactly when the flash has a bootable
      factory image and otherwise ends showing "Started". */
  lemma ResetGesture(k: Keypad, t: nat)
    requires Mode(k) == Normal && !k.comboPressed && !k.resetRequested && !k.restarting
    ensures var held := [KeyReport('S', Pressed, true), KeyReport('M', Pressed, true)];
            var k1 := CoreLoop(k, held, t);
            var k2 := CoreLoop(k1, held, t + FactoryResetHoldMs);
            var k3 := CoreLoop(k2, [KeyReport('S', Released, true), KeyReport('M', Released, true)], t + FactoryResetHoldMs + 100);
            var k4 := CoreLoop(k3, [KeyReport('D', Released, true)], t + FactoryResetHoldMs + 200);
            var k5 := CoreLoop(k4, [KeyReport('S', Released, true)], t + FactoryResetHoldMs + 300);
            && Mode(k3) == FactoryResetConfirm && k3.choice == Cancel && !k3.resetRequested
            && k4.choice == Confirm && !k4.resetRequested
            && k5.resetRequested && Mode(k5) == Normal
            && (k5.restarting <==> k.flash == FactoryBootable)
            && (k.flash != FactoryBootable ==> k5.vm.status == StartedText)
  {
    var held := [KeyReport('S', Pressed, true), KeyReport('M', Pressed, true)];
    var k1 := CoreLoop(k, held, t);
    HoldStarts(k, t);
    var k2 := CoreLoop(k1, held, t + FactoryResetHoldMs);
    HoldOpensDialog(k1, t + FactoryResetHoldMs);
    var k3 := CoreLoop(k2, [KeyReport('S', Released, true), KeyReport('M', Released, true)], t + FactoryResetHoldMs + 100);
    HeldReleasesSwallowed(k2, t + FactoryResetHoldMs + 100);
    var k4 := CoreLoop(k3, [KeyReport('D', Released, true)], t + FactoryResetHoldMs + 200);
    SingleRelease(k3, 'D', t + FactoryResetHoldMs + 200);
    SingleRelease(k4, 'S', t + FactoryResetHoldMs + 300);
  }

  /** Pressing S and M together starts the hold timer. */
  lemma HoldStarts(k: Keypad, t: nat)
    requires Mode(k) == Normal && !k.comboPressed && !k.resetRequested
    ensures var r := CoreLoop(k, [KeyReport('S', Pressed, true), KeyReport('M', Pressed, true)], t);
            Mode(r) == Normal && r.comboPressed && r.comboStart == t && !r.resetRequested
            && r.flash == k.flash && r.restarting == k.restarting
  {
    var held := [KeyReport('S', Pressed, true), KeyReport('M', Pressed, true)];
    assert AnyChange(held) by { assert held[0].changed; }
    assert AnyActive(held, 'S') by { assert held[0].key == 'S'; }
    assert AnyActive(held, 'M') by { assert held[1].key == 'M'; }
    assert Releases(k, held, t) == k by {
      assert Releases(k, held, t) == Releases(k, held[1..], t);
      assert Releases(k, held[1..], t) == Releases(k, held[2..], t);
    }
  }

  /** Still holding both once five seconds have passed opens the dialog. */
  lemma HoldOpensDialog(k: Keypad, now: nat)
    requires Mode(k) == Normal && k.comboPressed && now == k.comboStart + FactoryResetHoldMs && !k.resetRequested
    ensures var r := CoreLoop(k, [KeyReport('S', Pressed, true), KeyReport('M', Pressed, true)], now);
            && Mode(r) == FactoryResetConfirm && r.choice == Cancel && r.ignoreNextS && r.ignoreNextM
            && !r.comboPressed && !r.resetRequested
            && r.flash == k.flash && r.restarting == k.restarting
  {
    var held := [KeyReport('S', Pressed, true), KeyReport('M', Pressed, true)];
    assert AnyChange(held) by { assert held[0].changed; }
    assert AnyActive(held, 'S') by { assert held[0].key == 'S'; }
    assert AnyActive(held, 'M') by { assert held[1].key == 'M'; }
    assert Releases(k, held, now) == k by {
      assert Releases(k, held, now) == Releases(k, held[1..], now);
      assert Releases(k, held[1..], now) == Releases(k, held[2..], now);
    }
  }

  /** The releases of the two held keys only clear the swallow flags. */
  lemma HeldReleasesSwallowed(k: Keypad, now: nat)
    requires Mode(k) == FactoryResetConfirm && k.ignoreNextS && k.ignoreNextM && !k.comboPressed && !k.resetRequested
    ensures var r := CoreLoop(k, [KeyReport('S', Released, true), KeyReport('M', Released, true)], now);
            r == k.(ignoreNextS := false, ignoreNextM := false)
  {
    var up := [KeyReport('S', Released, true), KeyReport('M', Released, true)];
    assert AnyChange(up) by { assert up[0].changed; }
    var k1 := k.(ignoreNextS := false);
    assert Releases(k, up, now) == Releases(k1, up[1..], now);
    assert Releases(k1, up[1..], now) == Releases(k1.(ignoreNextM := false), up[2..], now);
  }

  /** One released key in the dialog is handled as `ConfirmRelease` says. */
  lemma SingleRelease(k: Keypad, key: char, now: nat)
    requires Mode(k) == FactoryResetConfirm && !k.comboPressed
    ensures CoreLoop(k, [KeyReport(key, Released, true)], now) == ConfirmRelease(k, key)
  {
    var one := [KeyReport(key, Released, true)];
    assert AnyChange(one) by { assert one[0].changed; }
    assert Releases(k, one, now) == Releases(ConfirmRelease(k, key), one[1..], now);
  }

  /** Releasing S while Cancel is chosen only closes the dialog. */
  lemma CancelKeepsDevice(k: Keypad, now: nat)
    requires Mode(k) == FactoryResetConfirm && k.choice == Cancel && !k.ignoreNextS && !k.resetRequested
    ensures var r := OnKeyRelease(k, 'S', now);
            !r.resetRequested && Mode(r) == Normal && r.menu.screen == k.menu.screen
  {
  }
}
