/** The tick-driven sequencer of IOCtl/ioctl.c that moves the USB multiplexer between the camera and the
  MFi side: power off, wait, switch, wait, power on, wait.

  A tick may find that its driver call fails, and a command may arrive between any two ticks.  `Tick`
  and `Command` say what each does, for both directions at once; class IoCtl is the code, which
  writes out the two directions separately, proved against them.
 */
module UsbSwitch {
  const TO_MFI := 0   // USB_SWITCH_TO_MFI
  const TO_CAM := 1
  const CAM := 1      // USB_LINK_TO_CAM
  const MFI := 2
  const WORD := 0x1_0000_0000

  const INVALID := 0
  const MFI_START := 1
  const MFI_POWEROFF := 2
  const MFI_SWITCH := 3
  const MFI_POWERON := 4
  const CAM_START := 5
  const CAM_POWEROFF := 6
  const CAM_SWITCH := 7
  const CAM_POWERON := 8

  const OFF_TO_SWITCH := 200000 / 30000
  const SWITCH_TO_ON := 200000 / 30000
  const RESPONSE_LATENCY := 1000000 / 30000

  /** The sequencer's three variables, and the hardware: the multiplexer and the USB power. */
  datatype Usb = Usb(state: int, cnt: int, linker: int, mux: int, power: bool)

  /** The side a state belongs to, and its place in the sequence. */
  function Target(state: int): int {
    if state <= MFI_POWERON then MFI else CAM
  }

  function Place(state: int): int {
    (state - 1) % 4
  }

  function Other(linker: int): int {
    if linker == CAM then MFI else CAM
  }

  function Limit(place: int): int {
    if place == 1 then OFF_TO_SWITCH else if place == 2 then SWITCH_TO_ON else RESPONSE_LATENCY
  }

  /** A tick calls the driver when the power goes off, and when a wait for the next call is over. */
  predicate CallsDriver(x: Usb) {
    var place := Place(x.state);
    x.state != INVALID && (place == 0 || (place < 3 && (x.cnt + 1) % WORD == Limit(place)))
  }

  /** What a driver call that succeeds does to the hardware, and where it leads. */
  function Proceed(x: Usb): Usb {
    var y := x.(cnt := 0, state := x.state + 1);
    match Place(x.state)
    case 0 => y.(power := false)
    case 1 => y.(mux := Target(x.state))
    case _ => y.(power := true)
  }

  function Tick(x: Usb, ok: bool): Usb {
    var cnt := (x.cnt + 1) % WORD;
    var place := Place(x.state);
    if x.state == INVALID then x
    else if CallsDriver(x) then
      if ok then Proceed(x) else x.(cnt := if place == 0 then cnt else Limit(place) - 1)
    else if place == 3 && cnt == Limit(place) then
      x.(cnt := 0, linker := Target(x.state), state := INVALID)
    else x.(cnt := cnt)
  }

  /** A command to the side that is linked is ignored; one to the other side starts from the top. */
  function Command(x: Usb, kind: int): Usb {
    if kind == TO_MFI && x.linker != MFI then x.(state := MFI_START)
    else if kind == TO_CAM && x.linker != CAM then x.(state := CAM_START)
    else x
  }

  // ---------- what every tick and command keeps ----------

  /** Idle with the multiplexer on the linked side and the power on; or heading away from the linked
      side, with the power and the multiplexer as the place in the sequence requires, and the counter
      below the value at which the wait ends. */
  predicate Inv(x: Usb) {
    && x.linker in {CAM, MFI} && x.mux in {CAM, MFI} && 0 <= x.cnt < WORD && INVALID <= x.state <= CAM_POWERON
    && (x.state == INVALID ==> x.power && x.mux == x.linker)
    && (x.state != INVALID ==>
          && Target(x.state) == Other(x.linker)
          && (0 < Place(x.state) ==> x.cnt < Limit(Place(x.state)))
          && (1 <= Place(x.state) <= 2 ==> !x.power)
          && (2 <= Place(x.state) ==> x.mux == Target(x.state))
          && (Place(x.state) == 3 ==> x.power))
  }

  datatype Event = Ticked(ok: bool) | Commanded(kind: int)

  function Next(x: Usb, e: Event): Usb {
    match e
    case Ticked(ok) => Tick(x, ok)
    case Commanded(kind) => Command(x, kind)
  }

  /** Every event keeps the invariant; and one that moves the multiplexer finds the power off and
      leaves it off. */
  lemma NextKeepsInv(x: Usb, e: Event)
    requires Inv(x)
    ensures Inv(Next(x, e))
    ensures Next(x, e).mux != x.mux ==> !x.power && !Next(x, e).power
  {
    if e.Ticked? {
      TickKeepsInv(x, e.ok);
    }
  }

  lemma TickKeepsInv(x: Usb, ok: bool)
    requires Inv(x)
    ensures Inv(Tick(x, ok))
    ensures Tick(x, ok).mux != x.mux ==> !x.power && !Tick(x, ok).power
  {
    if x.state != INVALID {
      var place, side := Place(x.state), Target(x.state);
      assert place < 3 ==> Place(x.state + 1) == place + 1 && Target(x.state + 1) == side;
    }
  }

  function Run(x: Usb, events: seq<Event>): Usb
    decreases events
  {
    if events == [] then x else Run(Next(x, events[0]), events[1..])
  }

  lemma {:induction false} RunKeepsInv(x: Usb, events: seq<Event>)
    requires Inv(x)
    ensures Inv(Run(x, events))
    decreases events
  {
    if events != [] {
      NextKeepsInv(x, events[0]);
      RunKeepsInv(Next(x, events[0]), events[1..]);
    }
  }

  // ---------- how long a switch takes ----------

  /** The ticks still to come if no driver call fails and no command restarts the switch. */
  function Remaining(x: Usb): int {
    if x.state == INVALID then 0
    else
      match Place(x.state)
      case 0 => 1 + OFF_TO_SWITCH + SWITCH_TO_ON + RESPONSE_LATENCY
      case 1 => OFF_TO_SWITCH - x.cnt + SWITCH_TO_ON + RESPONSE_LATENCY
      case 2 => SWITCH_TO_ON - x.cnt + RESPONSE_LATENCY
      case _ => RESPONSE_LATENCY - x.cnt
  }

  /** A tick of an active switch brings the end one tick nearer unless its driver call fails. */
  lemma TickProgresses(x: Usb, ok: bool)
    requires Inv(x) && x.state != INVALID
    ensures Remaining(Tick(x, ok)) == if CallsDriver(x) && !ok then Remaining(x) else Remaining(x) - 1
    ensures Tick(x, ok).state == INVALID ==> Tick(x, ok).linker == Target(x.state)
    ensures Tick(x, ok).state != INVALID ==>
              Target(Tick(x, ok).state) == Target(x.state) && Tick(x, ok).linker == x.linker
    ensures Tick(x, ok).state == INVALID <==> Remaining(Tick(x, ok)) == 0
  {
  }

  /** The number of failed driver calls in a run of ticks. */
  function Failures(x: Usb, oks: seq<bool>): (r: nat)
    decreases oks
  {
    if oks == [] then 0
    else (if CallsDriver(x) && !oks[0] then 1 else 0) + Failures(Tick(x, oks[0]), oks[1..])
  }

  function Ticks(x: Usb, oks: seq<bool>): Usb
    decreases oks
  {
    if oks == [] then x else Ticks(Tick(x, oks[0]), oks[1..])
  }

  lemma {:induction false} FailuresAtMost(x: Usb, oks: seq<bool>)
    ensures Failures(x, oks) <= |oks|
    decreases oks
  {
    if oks != [] {
      FailuresAtMost(Tick(x, oks[0]), oks[1..]);
    }
  }

  /** A switch that no command restarts ends exactly 46 ticks and the failed calls after its start, on
      the other side. */
  lemma {:induction false} SwitchEndsExactly(x: Usb, oks: seq<bool>)
    requires Inv(x)
    ensures var y, left := Ticks(x, oks), Remaining(x) - (|oks| - Failures(x, oks));
            && Inv(y)
            && (x.state != INVALID && left > 0 ==> y.state != INVALID && Remaining(y) == left && y.linker == x.linker)
            && (x.state != INVALID && left <= 0 ==> y.state == INVALID && y.linker == Other(x.linker))
            && (x.state == INVALID ==> y == x)
    decreases oks
  {
    if oks != [] {
      NextKeepsInv(x, Ticked(oks[0]));
      if x.state != INVALID {
        TickProgresses(x, oks[0]);
      }
      var next, later := Tick(x, oks[0]), oks[1..];
      SwitchEndsExactly(next, later);
      assert Ticks(x, oks) == Ticks(next, later);
      FailuresAtMost(next, later);
    }
  }

  function Falses(oks: seq<bool>): (r: nat)
    decreases oks
  {
    if oks == [] then 0 else (if oks[0] then 0 else 1) + Falses(oks[1..])
  }

  lemma {:induction false} FailuresAreFalses(x: Usb, oks: seq<bool>)
    ensures Failures(x, oks) <= Falses(oks)
    decreases oks
  {
    if oks != [] {
      FailuresAreFalses(Tick(x, oks[0]), oks[1..]);
    }
  }

  /** A command to the side that is not linked, idle or at any point of a switch: 46 ticks and the failed
      driver calls later, and not before, the multiplexer and the link are on that side, with the power on.
      So a command that is repeated starts the 46 ticks again. */
  lemma StartTakes46(x: Usb, kind: int, side: int, oks: seq<bool>)
    requires Inv(x) && ((kind == 0 && side == MFI) || (kind == 1 && side == CAM)) && x.linker != side
    ensures var start := Command(x, kind);
            var y := Ticks(start, oks);
            && (y.state == INVALID <==> 46 + Failures(start, oks) <= |oks|)
            && (|oks| < 46 ==> y.state != INVALID && y.linker == x.linker)
            && (46 + Falses(oks) <= |oks| ==> y == Usb(INVALID, y.cnt, side, side, true))
  {
    var start := Command(x, kind);
    NextKeepsInv(x, Commanded(kind));
    SwitchEndsExactly(start, oks);
    FailuresAreFalses(start, oks);
  }

  /** Commands to the linked side, and of no known kind, change nothing. */
  lemma OtherCommandsAreIgnored(x: Usb, kind: int)
    requires Inv(x)
    ensures kind == (if x.linker == MFI then 0 else 1) || kind < 0 || 1 < kind ==> Command(x, kind) == x
  {
  }

  /** A command back to the linked side does not stop a switch: it is ignored until the switch is
      over, and the switch then ends on the other side. */
  lemma CommandBackIsLost(x: Usb, kind: int, oks: seq<bool>)
    requires Inv(x) && x.state != INVALID
    requires kind == if x.linker == MFI then TO_MFI else TO_CAM
    requires |oks| - Failures(x, oks) >= Remaining(x)
    ensures Ticks(Command(x, kind), oks).linker == Other(x.linker)
  {
    SwitchEndsExactly(x, oks);
  }

  // ---------- the code ----------

  class IoCtl {
    var unUsbSwitchState: int
    var unLoopCnts: int
    var unUsbCurLinker: int
    /** The hardware behind the driver. */
    var mux: int
    var power: bool

    function View(): Usb
      reads this
    {
      Usb(unUsbSwitchState, unLoopCnts, unUsbCurLinker, mux, power)
    }

    constructor ()
      ensures View() == Usb(INVALID, 0, CAM, CAM, true) && Inv(View())
    {
      unUsbSwitchState, unLoopCnts, unUsbCurLinker, mux, power := INVALID, 0, CAM, CAM, true;
    }

    method UsbSwitchMsgHandler(unSwitchType: int)
      modifies this
      ensures View() == Command(old(View()), unSwitchType)
    {
      match unSwitchType {
        case 0 =>
          if unUsbCurLinker == MFI {
            return;
          }
          unUsbSwitchState := MFI_START;
        case 1 =>
          if unUsbCurLinker == CAM {
            return;
          }
          unUsbSwitchState := CAM_START;
        case _ =>
      }
    }

    method Poweroff(ok: bool)
      modifies `power
      ensures power == (old(power) && !ok)
    {
      if ok {
        power := false;
      }
    }

    method Poweron(ok: bool)
      modifies `power
      ensures power == (old(power) || ok)
    {
      if ok {
        power := true;
      }
    }

    method SwitchTo(side: int, ok: bool)
      modifies `mux
      ensures mux == if ok then side else old(mux)
    {
      if ok {
        mux := side;
      }
    }

    /** One tick.  `ok` says whether the driver call of this tick, if it makes one, succeeds. */
    method UsbSwitchControl(ok: bool)
      requires Inv(View())
      modifies this
      ensures View() == Tick(old(View()), ok) && Inv(View())
    {
      NextKeepsInv(View(), Ticked(ok));
      if unUsbSwitchState == INVALID {
      } else if MFI_START <= unUsbSwitchState <= MFI_POWERON {
        unLoopCnts := (unLoopCnts + 1) % WORD;
        if unUsbSwitchState == MFI_START {
          Poweroff(ok);
          if !ok {
            return;
          }
          unLoopCnts := 0;
          unUsbSwitchState := MFI_POWEROFF;
        } else if unUsbSwitchState == MFI_POWEROFF {
          if unLoopCnts == OFF_TO_SWITCH {
            SwitchTo(MFI, ok);
            if !ok {
              unLoopCnts := OFF_TO_SWITCH - 1;
              return;
            }
            unLoopCnts := 0;
            unUsbSwitchState := MFI_SWITCH;
          }
        } else if unUsbSwitchState == MFI_SWITCH {
          if unLoopCnts == SWITCH_TO_ON {
            Poweron(ok);
            if !ok {
              unLoopCnts := SWITCH_TO_ON - 1;
              return;
            }
            unLoopCnts := 0;
            unUsbSwitchState := MFI_POWERON;
          }
        } else if unUsbSwitchState == MFI_POWERON {
          if unLoopCnts == RESPONSE_LATENCY {
            unLoopCnts := 0;
            unUsbCurLinker := MFI;
            unUsbSwitchState := INVALID;
          }
        }
      } else if CAM_START <= unUsbSwitchState <= CAM_POWERON {
        unLoopCnts := (unLoopCnts + 1) % WORD;
        if unUsbSwitchState == CAM_START {
          Poweroff(ok);
          if !ok {
            return;
          }
          unLoopCnts := 0;
          unUsbSwitchState := CAM_POWEROFF;
        } else if unUsbSwitchState == CAM_POWEROFF {
          if unLoopCnts == OFF_TO_SWITCH {
            SwitchTo(CAM, ok);
            if !ok {
              unLoopCnts := OFF_TO_SWITCH - 1;
              return;
            }
            unLoopCnts := 0;
            unUsbSwitchState := CAM_SWITCH;
          }
        } else if unUsbSwitchState == CAM_SWITCH {
          if unLoopCnts == SWITCH_TO_ON {
            Poweron(ok);
            if !ok {
              unLoopCnts := SWITCH_TO_ON - 1;
              return;
            }
            unLoopCnts := 0;
            unUsbSwitchState := CAM_POWERON;
          }
        } else if unUsbSwitchState == CAM_POWERON {
          if unLoopCnts == RESPONSE_LATENCY {
            unLoopCnts := 0;
            unUsbCurLinker := CAM;
            unUsbSwitchState := INVALID;
          }
        }
      }
    }
  }
}
