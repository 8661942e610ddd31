/** The network set-up machine of NetWorkSet/networkset.c for dynamic addresses: one pass of the thread
  loop sets the network type, waits for the wifi login, starts DHCP and checks for an address.

  Every wait is an equality test on one counter that the steps share.  `Iterate` says what a pass
  does; class NetWorkSet is the code, step by step, proved against it.
 */
module DhcpRetry {
  import opened Wrappers

  const WIRED := 1
  const WIRELESS := 2
  const WORD := 0x1_0000_0000

  const MAX_WIFI_LOGIN_TIMES := 40
  const DHCP_RESET_DEFAULT_TIMES := 3
  const DHCP_MAX_RETRY_TIME := 3
  const DHCP_DEFAULT_TIMEOUT := 45
  const USLEEP := 200000 // NETWORKSET_THREAD_USLEEP

  datatype State = Invalid | ReadySet | WiredTypeOk | SetWifiOk | WifiLoginOk | SetDhcp | SetIpSuccess

  /** g_stLocalNetSetInfo's network type, and the variables of the machine.  `rounds`, `resets` and
      `notices` count finished DHCP rounds, resets and reports of a failed login; they are history. */
  datatype Net = Net(local: int, netType: int, state: State, loopCnts: int, checkDhcpTimes: int,
                     dhcpFailedTimes: int, wifiEncryTimes: int, rounds: nat, resets: nat, notices: nat) {

    /** clean_net_info_msghandler. */
    function Cleaned(): Net {
      Net(local, 0, Invalid, 0, 0, 0, 0, rounds, resets, notices)
    }
  }

  /** What a pass finds: a message to set a network, the login, the address, the time DHCP took. */
  datatype Input = Input(request: Option<int>, loginOk: bool, gotIp: bool, dhcpFinishTime: nat)

  // ---------- one pass ----------

  function Message(x: Net, request: Option<int>): Net {
    match request
    case None => x
    case Some(t) =>
      if x.netType == WIRED then x else x.Cleaned().(local := t, state := ReadySet)
  }

  function SetNetType(x: Net): Net {
    if x.state != ReadySet then x
    else if x.local == WIRED then x.(state := WiredTypeOk, netType := x.local)
    else if x.local == WIRELESS then
      x.(state := SetWifiOk, netType := x.local, wifiEncryTimes := (x.wifiEncryTimes + 1) % WORD)
    else x.Cleaned()
  }

  function CheckLogin(x: Net, loginOk: bool): Net {
    if x.state != SetWifiOk then x
    else if loginOk then x.(state := WifiLoginOk, loopCnts := 0)
    else if x.loopCnts == MAX_WIFI_LOGIN_TIMES then
      x.(state := ReadySet, loopCnts := 0, notices := if x.wifiEncryTimes == 4 then x.notices + 1 else x.notices)
    else x.(loopCnts := (x.loopCnts + 1) % WORD)
  }

  function SetIpType(x: Net): Net {
    if x.state != WifiLoginOk && x.state != WiredTypeOk then x
    else x.(netType := x.local, state := SetDhcp, loopCnts := 0)
  }

  /** The value of the counter at which the address is looked for, after so many earlier looks. */
  function Interval(times: int): (r: nat) {
    (if times == 0 then 2000000 else if times == 1 then 3000000 else if times == 2 then 7000000 else 15000000) / USLEEP
  }

  function CheckDhcp(x: Net, gotIp: bool, finish: nat): Net {
    if x.state != SetDhcp then x
    else if x.loopCnts != Interval(x.checkDhcpTimes) then x.(loopCnts := (x.loopCnts + 1) % WORD)
    else if gotIp then
      x.(state := SetIpSuccess, checkDhcpTimes := 0, wifiEncryTimes := 0, loopCnts := 0)
    else if x.dhcpFailedTimes == DHCP_RESET_DEFAULT_TIMES && x.netType == WIRELESS then
      x.Cleaned().(checkDhcpTimes := 1, resets := x.resets + 1)
    else if x.checkDhcpTimes == DHCP_MAX_RETRY_TIME then
      if finish > DHCP_DEFAULT_TIMEOUT && x.netType == WIRELESS then
        x.Cleaned().(dhcpFailedTimes := 1, resets := x.resets + 1, rounds := x.rounds + 1)
      else
        x.(checkDhcpTimes := 0, loopCnts := 0, state := WifiLoginOk,
           dhcpFailedTimes := (x.dhcpFailedTimes + 1) % WORD, rounds := x.rounds + 1)
    else x.(checkDhcpTimes := (x.checkDhcpTimes + 1) % WORD, loopCnts := 0)
  }

  function Iterate(x: Net, i: Input): Net {
    CheckDhcp(SetIpType(CheckLogin(SetNetType(Message(x, i.request)), i.loginOk)), i.gotIp, i.dhcpFinishTime)
  }

  // ---------- what every pass keeps ----------

  /** A wait counter is never past the value that ends the wait; and what else holds between passes. */
  predicate Inv(x: Net) {
    && 0 <= x.loopCnts && 0 <= x.checkDhcpTimes && 0 <= x.dhcpFailedTimes < WORD && 0 <= x.wifiEncryTimes < WORD
    && (x.state == SetWifiOk ==> x.loopCnts <= MAX_WIFI_LOGIN_TIMES && x.netType == WIRELESS)
    && (x.state == SetDhcp ==> x.checkDhcpTimes <= DHCP_MAX_RETRY_TIME && x.loopCnts <= Interval(x.checkDhcpTimes))
    && (x.state == ReadySet ==> x.loopCnts == 0)
    && (x.state in {ReadySet, WiredTypeOk, SetWifiOk, WifiLoginOk} ==> x.checkDhcpTimes == 0)
    && (x.state in {WiredTypeOk, SetWifiOk, WifiLoginOk, SetDhcp} ==>
          x.netType == x.local && x.local in {WIRED, WIRELESS})
    && (x.state in {ReadySet, SetWifiOk} ==> x.dhcpFailedTimes == 0)
    && (x.state == WiredTypeOk ==> x.local == WIRED)
    && (x.state in {ReadySet, SetWifiOk, WifiLoginOk, SetDhcp} && x.local == WIRELESS ==>
          x.dhcpFailedTimes <= DHCP_RESET_DEFAULT_TIMES)
    && (x.state == SetDhcp && x.local == WIRELESS && x.dhcpFailedTimes == DHCP_RESET_DEFAULT_TIMES ==>
          x.checkDhcpTimes == 0)
  }

  lemma StepsKeepInv(x: Net, i: Input)
    requires Inv(x)
    ensures Inv(Message(x, i.request)) && Inv(SetNetType(x)) && Inv(CheckLogin(x, i.loginOk)) && Inv(SetIpType(x))
  {
  }

  lemma CheckDhcpKeepsInv(x: Net, gotIp: bool, finish: nat)
    requires Inv(x)
    ensures Inv(CheckDhcp(x, gotIp, finish))
  {
  }

  /** In every run, with messages and addresses arriving at any pass, no wait misses its end. */
  lemma IterateKeepsInv(x: Net, i: Input)
    requires Inv(x)
    ensures Inv(Iterate(x, i))
  {
    var a := Message(x, i.request);
    StepsKeepInv(x, i);
    StepsKeepInv(a, i);
    StepsKeepInv(SetNetType(a), i);
    StepsKeepInv(CheckLogin(SetNetType(a), i.loginOk), i);
    CheckDhcpKeepsInv(SetIpType(CheckLogin(SetNetType(a), i.loginOk)), i.gotIp, i.dhcpFinishTime);
  }

  function Run(x: Net, ins: seq<Input>): Net
    decreases ins
  {
    if ins == [] then x else Run(Iterate(x, ins[0]), ins[1..])
  }

  lemma {:induction false} RunKeepsInv(x: Net, ins: seq<Input>)
    requires Inv(x)
    ensures Inv(Run(x, ins))
    decreases ins
  {
    if ins != [] {
      IterateKeepsInv(x, ins[0]);
      RunKeepsInv(Iterate(x, ins[0]), ins[1..]);
    }
  }

  // ---------- how long it takes when no address arrives ----------

  /** The passes left in the current round. */
  function RoundLeft(times: int, cnt: int): int {
    var here := Interval(times) + 1 - cnt;
    if times == 0 then here + 16 + 36 + 76
    else if times == 1 then here + 36 + 76
    else if times == 2 then here + 76
    else here
  }

  predicate Asking(x: Net) {
    x.state == SetDhcp || x.state == WifiLoginOk || x.state == WiredTypeOk
  }

  /** The passes left in the round that the machine is in or about to start. */
  function Left(x: Net): int {
    if x.state == SetDhcp then RoundLeft(x.checkDhcpTimes, x.loopCnts) else RoundLeft(0, 0)
  }

  /** No message, no address, and DHCP returns in time. */
  predicate Quiet(i: Input) {
    i.request == None && !i.gotIp && i.dhcpFinishTime <= 45
  }

  /** A wireless set-up: the passes until the reset. */
  function UntilReset(x: Net): int {
    if x.dhcpFailedTimes < DHCP_RESET_DEFAULT_TIMES then
      Left(x) + (2 - x.dhcpFailedTimes) * RoundLeft(0, 0) + Interval(0) + 1
    else Left(x) - 128
  }

  lemma QuietPass(x: Net, i: Input)
    requires Inv(x) && Asking(x) && Quiet(i)
    ensures Iterate(x, i) == CheckDhcp(SetIpType(x), false, i.dhcpFinishTime)
    ensures Inv(SetIpType(x)) && SetIpType(x).state == SetDhcp && SetIpType(x).resets == x.resets
    ensures SetIpType(x).local == x.local && Left(SetIpType(x)) == Left(x) && UntilReset(SetIpType(x)) == UntilReset(x)
  {
    StepsKeepInv(x, i);
  }

  lemma WirelessPass(x: Net, i: Input)
    requires Inv(x) && Asking(x) && Quiet(i) && x.local == WIRELESS
    ensures var y := Iterate(x, i);
            && 0 < UntilReset(x)
            && (UntilReset(x) > 1 ==> Asking(y) && y.local == WIRELESS && UntilReset(y) == UntilReset(x) - 1
                                      && y.resets == x.resets)
            && (UntilReset(x) == 1 ==> y.state == Invalid && y.resets == x.resets + 1)
  {
    QuietPass(x, i);
    WirelessCheck(SetIpType(x), i.dhcpFinishTime);
  }

  lemma WirelessCheck(x: Net, finish: nat)
    requires Inv(x) && x.state == SetDhcp && x.local == WIRELESS && finish <= 45
    ensures var y := CheckDhcp(x, false, finish);
            && 0 < UntilReset(x)
            && (UntilReset(x) > 1 ==> Asking(y) && y.local == WIRELESS && UntilReset(y) == UntilReset(x) - 1
                                      && y.resets == x.resets)
            && (UntilReset(x) == 1 ==> y.state == Invalid && y.resets == x.resets + 1)
  {
    if x.loopCnts == Interval(x.checkDhcpTimes) {
      WirelessLooks(x, finish);
    } else {
      WirelessWaits(x, finish);
    }
  }

  lemma WirelessWaits(x: Net, finish: nat)
    requires Inv(x) && x.state == SetDhcp && x.local == WIRELESS && x.loopCnts != Interval(x.checkDhcpTimes)
    ensures CheckDhcp(x, false, finish) == x.(loopCnts := x.loopCnts + 1)
    ensures 1 < UntilReset(x) && UntilReset(x.(loopCnts := x.loopCnts + 1)) == UntilReset(x) - 1
  {
  }

  lemma WirelessLooks(x: Net, finish: nat)
    requires Inv(x) && x.state == SetDhcp && x.local == WIRELESS && finish <= 45
    requires x.loopCnts == Interval(x.checkDhcpTimes)
    ensures var y := CheckDhcp(x, false, finish);
            && 0 < UntilReset(x)
            && (UntilReset(x) > 1 ==> Asking(y) && y.local == WIRELESS && UntilReset(y) == UntilReset(x) - 1
                                      && y.resets == x.resets)
            && (UntilReset(x) == 1 ==> y.state == Invalid && y.resets == x.resets + 1)
  {
  }

  /** A wireless set-up that gets no address resets exactly when its count of passes runs out, and not
      before. */
  lemma {:induction false} WirelessResetsExactly(x: Net, ins: seq<Input>)
    requires Inv(x) && Asking(x) && x.local == WIRELESS
    requires forall i :: i in ins ==> Quiet(i)
    ensures |ins| < UntilReset(x) ==> Asking(Run(x, ins)) && Run(x, ins).resets == x.resets
    ensures |ins| == UntilReset(x) ==> Run(x, ins).state == Invalid && Run(x, ins).resets == x.resets + 1
    decreases ins
  {
    if ins == [] {
      if UntilReset(x) <= 0 {
        WirelessPass(x, Input(None, false, false, 0));
      }
    } else {
      WirelessPass(x, ins[0]);
      IterateKeepsInv(x, ins[0]);
      var y, later := Iterate(x, ins[0]), ins[1..];
      assert Run(x, ins) == Run(y, later);
      if UntilReset(x) > 1 {
        WirelessResetsExactly(y, later);
      }
    }
  }

  /** From the login that is three rounds of 139 passes and a check of 11. */
  lemma LoginToReset(x: Net)
    requires x.state == WifiLoginOk && x.dhcpFailedTimes == 0
    ensures RoundLeft(0, 0) == 139 && Interval(0) + 1 == 11
    ensures UntilReset(x) == 3 * 139 + 11
  {
  }

  /** When DHCP takes too long, a wireless set-up resets at the end of the round instead. */
  lemma SlowDhcpResets(x: Net, i: Input)
    requires Inv(x) && Asking(x) && x.local == WIRELESS && x.dhcpFailedTimes < DHCP_RESET_DEFAULT_TIMES
    requires i.request == None && !i.gotIp && i.dhcpFinishTime > 45
    ensures Left(x) == 1 <==> Iterate(x, i).resets == x.resets + 1
    ensures Left(x) > 1 ==> Asking(Iterate(x, i)) && Left(Iterate(x, i)) == Left(x) - 1
  {
    StepsKeepInv(x, i);
  }

  /** The passes made since the set-up began, as its finished rounds and the current one show. */
  function Passes(x: Net): int {
    139 * x.rounds + 139 - Left(x)
  }

  /** A wired set-up that gets no address goes from round to round for ever. */
  lemma {:induction false} WiredRetriesForever(x: Net, ins: seq<Input>)
    requires Inv(x) && Asking(x) && x.local == WIRED
    requires forall i :: i in ins ==> i.request == None && !i.gotIp
    ensures var y := Run(x, ins);
            && Asking(y) && y.resets == x.resets && y.local == WIRED
            && Passes(y) == Passes(x) + |ins|
    decreases ins
  {
    if ins != [] {
      WiredPass(x, ins[0]);
      IterateKeepsInv(x, ins[0]);
      WiredRetriesForever(Iterate(x, ins[0]), ins[1..]);
    }
  }

  lemma WiredPass(x: Net, i: Input)
    requires Inv(x) && Asking(x) && x.local == WIRED && i.request == None && !i.gotIp
    ensures var y := Iterate(x, i);
            && Asking(y) && y.resets == x.resets && y.local == WIRED && Passes(y) == Passes(x) + 1
  {
    StepsKeepInv(x, i);
    WiredCheck(SetIpType(x), i.dhcpFinishTime);
  }

  lemma WiredCheck(x: Net, finish: nat)
    requires Inv(x) && x.state == SetDhcp && x.local == WIRED
    ensures var y := CheckDhcp(x, false, finish);
            && Asking(y) && y.resets == x.resets && y.local == WIRED && Passes(y) == Passes(x) + 1
  {
  }

  // ---------- when an address arrives ----------

  /** In a round of 139 passes the address is looked for in four: the 11th, 27th, 63rd and 139th.  If it is
      there the set-up is over, with its counters cleared; nothing else ends it so. */
  lemma AddressEndsSetUp(x: Net, i: Input)
    requires Inv(x) && Asking(x) && i.request == None
    ensures Iterate(x, i).state == SetIpSuccess <==> i.gotIp && 140 - Left(x) in {11, 27, 63, 139}
    ensures Iterate(x, i).state == SetIpSuccess ==>
              Iterate(x, i) == x.(state := SetIpSuccess, netType := x.local,
                                  loopCnts := 0, checkDhcpTimes := 0, wifiEncryTimes := 0)
    ensures i.gotIp && Iterate(x, i).state != SetIpSuccess ==>
              Asking(Iterate(x, i)) && Left(Iterate(x, i)) == Left(x) - 1
  {
    StepsKeepInv(x, i);
    LookFinds(SetIpType(x), i.gotIp, i.dhcpFinishTime);
  }

  lemma LookFinds(x: Net, gotIp: bool, finish: nat)
    requires Inv(x) && x.state == SetDhcp
    ensures CheckDhcp(x, gotIp, finish).state == SetIpSuccess <==> gotIp && 140 - Left(x) in {11, 27, 63, 139}
    ensures gotIp && CheckDhcp(x, gotIp, finish).state != SetIpSuccess ==>
              CheckDhcp(x, gotIp, finish).state == SetDhcp && Left(CheckDhcp(x, gotIp, finish)) == Left(x) - 1
  {
  }

  /** A network that is set up stays as it is until a message comes; and a wired one ignores messages. */
  lemma SetUpStays(x: Net, i: Input)
    requires x.state == SetIpSuccess && (i.request == None || x.netType == 1)
    ensures Iterate(x, i) == x
  {
  }

  /** A message to set up a wired network, or a wireless one whose login is there, starts from scratch
      whatever went before, unless the network is wired already; the first pass gets as far as DHCP. */
  lemma MessageStarts(x: Net, i: Input, t: int)
    requires x.netType != 1 && i.request == Some(t)
    ensures t == 1 || (t == 2 && i.loginOk) ==>
              Iterate(x, i) == Net(t, t, SetDhcp, 1, 0, 0, t - 1, x.rounds, x.resets, x.notices)
    ensures t == 2 && !i.loginOk ==>
              Iterate(x, i) == Net(t, t, SetWifiOk, 1, 0, 0, 1, x.rounds, x.resets, x.notices)
    ensures t != 1 && t != 2 ==>
              Iterate(x, i) == Net(t, 0, Invalid, 0, 0, 0, 0, x.rounds, x.resets, x.notices)
  {
  }

  /** A set-up in which all goes well takes eleven passes. */
  lemma {:induction false} SetUpTakesEleven(x: Net, ins: seq<Input>, t: int)
    requires x.netType != 1 && (t == 1 || t == 2) && 1 <= |ins| <= 11
    requires ins[0].request == Some(t) && ins[0].loginOk
    requires forall k :: 1 <= k < |ins| ==> ins[k].request == None && ins[k].gotIp
    ensures var y := Run(x, ins);
            && (y.state == SetIpSuccess <==> |ins| == 11)
            && y.netType == t && y.local == t && y.resets == x.resets
  {
    MessageStarts(x, ins[0], t);
    WaitForLook(Iterate(x, ins[0]), ins[1..]);
  }

  lemma {:induction false} WaitForLook(x: Net, ins: seq<Input>)
    requires Inv(x) && x.state == SetDhcp && x.checkDhcpTimes == 0 && x.loopCnts + |ins| <= 11
    requires forall i :: i in ins ==> i.request == None && i.gotIp
    ensures var y := Run(x, ins);
            && (y.state == SetIpSuccess <==> x.loopCnts + |ins| == 11)
            && y.netType == x.netType && y.local == x.local && y.resets == x.resets
    decreases ins
  {
    if ins != [] {
      var y, later := Iterate(x, ins[0]), ins[1..];
      IterateKeepsInv(x, ins[0]);
      OneWait(x, ins[0]);
      if x.loopCnts < 10 {
        WaitForLook(y, later);
      } else {
        assert later == [];
      }
    }
  }

  lemma OneWait(x: Net, i: Input)
    requires Inv(x) && x.state == SetDhcp && x.checkDhcpTimes == 0 && i.request == None && i.gotIp
    ensures x.loopCnts <= 10
    ensures Iterate(x, i) == if x.loopCnts < 10 then x.(loopCnts := x.loopCnts + 1)
                             else x.(state := SetIpSuccess, checkDhcpTimes := 0, wifiEncryTimes := 0, loopCnts := 0)
  {
  }

  // ---------- the wifi login ----------

  /** A login attempt takes 41 passes. */
  function LoginPasses(x: Net): int {
    if x.state == SetWifiOk then 41 * (x.wifiEncryTimes - 1) + x.loopCnts else 41 * x.wifiEncryTimes
  }

  /** While the login fails the attempts follow each other, and the failure is reported once: at the
      end of the fourth attempt, the 164th pass. */
  lemma FailingLoginPass(x: Net, i: Input)
    requires Inv(x) && x.state in {ReadySet, SetWifiOk} && x.local == WIRELESS && x.wifiEncryTimes < WORD - 1
    requires x.state == SetWifiOk ==> 1 <= x.wifiEncryTimes
    requires i.request == None && !i.loginOk
    ensures var y := Iterate(x, i);
            && y.state in {ReadySet, SetWifiOk} && y.local == WIRELESS
            && LoginPasses(y) == LoginPasses(x) + 1
            && y.notices == if LoginPasses(y) == 164 then x.notices + 1 else x.notices
  {
    StepsKeepInv(x, i);
  }

  const WPAPSK_TKIP := 14
  const WPAPSK_AES := 15
  const WPA2PSK_TKIP := 16
  const WPA2PSK_AES := 17

  /** return_mixed_WifiEntryType_by_times, with C's remainder. */
  function MixedType(nTime: int): int {
    var r := if nTime < 0 then -(-nTime % 4) else nTime % 4;
    if r == 1 then WPA2PSK_AES
    else if r == 2 then WPA2PSK_TKIP
    else if r == 3 then WPAPSK_AES
    else if r == 0 then WPAPSK_TKIP
    else WPA2PSK_AES
  }

  /** Four attempts in a row try all four kinds, from the strongest to the weakest, as long as the count has
      not passed the int range; after that only two of them are tried. */
  lemma FourAttemptsTryAll(n: int)
    ensures 0 <= n ==> {MixedType(n), MixedType(n + 1), MixedType(n + 2), MixedType(n + 3)}
                       == {WPAPSK_TKIP, WPAPSK_AES, WPA2PSK_TKIP, WPA2PSK_AES}
    ensures 1 <= n <= 4 ==> MixedType(n) == WPA2PSK_AES + 1 - n
    ensures 0 <= n ==> MixedType(n + 4) == MixedType(n)
    ensures n < 0 ==> MixedType(n) in {WPA2PSK_AES, WPAPSK_TKIP}
  {
    if 0 <= n {
      var q := n / 4;
      assert n == 4 * q || n == 4 * q + 1 || n == 4 * q + 2 || n == 4 * q + 3;
    }
  }

  // ---------- the code ----------

  class NetWorkSet {
    var local: int
    var unNetType: int
    var unNetState: State
    var unLoopCnts: int
    var unCheckDhcpTimes: int
    var unDhcpFailedTimes: int
    var unWifiEncryTimes: int
    ghost var rounds: nat
    ghost var resets: nat
    ghost var notices: nat

    ghost function View(): Net
      reads this
    {
      Net(local, unNetType, unNetState, unLoopCnts, unCheckDhcpTimes, unDhcpFailedTimes, unWifiEncryTimes,
          rounds, resets, notices)
    }

    constructor ()
      ensures View() == Net(0, 0, Invalid, 0, 0, 0, 0, 0, 0, 0) && Inv(View())
    {
      local, unNetType, unNetState := 0, 0, Invalid;
      unLoopCnts, unCheckDhcpTimes, unDhcpFailedTimes, unWifiEncryTimes := 0, 0, 0, 0;
      rounds, resets, notices := 0, 0, 0;
    }

    method CleanNetInfo()
      modifies this
      ensures View() == old(View()).Cleaned()
    {
      unNetType, unNetState := 0, Invalid;
      unLoopCnts, unCheckDhcpTimes, unDhcpFailedTimes, unWifiEncryTimes := 0, 0, 0, 0;
    }

    method NetWorksetMsgHandler(request: Option<int>)
      modifies this
      ensures View() == Message(old(View()), request)
    {
      if request.Some? {
        if unNetType == WIRED {
          return;
        }
        CleanNetInfo();
        local := request.value;
        unNetState := ReadySet;
      }
    }

    method DoSetNetType()
      modifies this
      ensures View() == SetNetType(old(View()))
    {
      if unNetState == ReadySet {
        if local == WIRED {
          unNetState := WiredTypeOk;
        } else if local == WIRELESS {
          unWifiEncryTimes := (unWifiEncryTimes + 1) % WORD;
          unNetState := SetWifiOk;
        } else {
          CleanNetInfo();
          return;
        }
        unNetType := local;
      }
    }

    method CheckWifiLoginStatus(connected: bool)
      modifies this
      ensures View() == CheckLogin(old(View()), connected)
    {
      if unNetState != SetWifiOk {
        return;
      }
      if connected {
        unNetState := WifiLoginOk;
        unLoopCnts := 0;
      } else {
        if MAX_WIFI_LOGIN_TIMES == unLoopCnts {
          unNetState := ReadySet;
          unLoopCnts := 0;
          if unWifiEncryTimes == 4 {
            notices := notices + 1;
          }
        } else {
          unLoopCnts := (unLoopCnts + 1) % WORD;
        }
      }
    }

    method DoSetIpType()
      modifies this
      ensures View() == SetIpType(old(View()))
    {
      if unNetState == WifiLoginOk || unNetState == WiredTypeOk {
        unNetType := local;
        unNetState := SetDhcp;
        unLoopCnts := 0;
      }
    }

    method CheckDhcpSetResult(gotIp: bool, g_nDhcpFinishTime: nat)
      modifies this
      ensures View() == CheckDhcp(old(View()), gotIp, g_nDhcpFinishTime)
    {
      var interval;
      if unCheckDhcpTimes == 0 {
        interval := 2000000;
      } else if unCheckDhcpTimes == 1 {
        interval := 3000000;
      } else if unCheckDhcpTimes == 2 {
        interval := 7000000;
      } else {
        interval := 15000000;
      }
      if unNetState == SetDhcp {
        if interval / USLEEP == unLoopCnts {
          if gotIp {
            unNetState := SetIpSuccess;
            unCheckDhcpTimes, unWifiEncryTimes, unLoopCnts := 0, 0, 0;
            return;
          }
          if unDhcpFailedTimes == DHCP_RESET_DEFAULT_TIMES && unNetType == WIRELESS {
            CleanNetInfo();
            resets := resets + 1;
          } else if unCheckDhcpTimes == DHCP_MAX_RETRY_TIME {
            if g_nDhcpFinishTime > DHCP_DEFAULT_TIMEOUT && unNetType == WIRELESS {
              CleanNetInfo();
              resets := resets + 1;
            } else {
              unCheckDhcpTimes, unLoopCnts := 0, 0;
              unNetState := WifiLoginOk;
            }
            unDhcpFailedTimes := (unDhcpFailedTimes + 1) % WORD;
            rounds := rounds + 1;
            return;
          }
          unCheckDhcpTimes := (unCheckDhcpTimes + 1) % WORD;
          unLoopCnts := 0;
        } else {
          unLoopCnts := (unLoopCnts + 1) % WORD;
        }
      }
    }

    /** One pass of the thread loop. */
    method Loop(i: Input)
      requires Inv(View())
      modifies this
      ensures View() == Iterate(old(View()), i) && Inv(View())
    {
      IterateKeepsInv(View(), i);
      NetWorksetMsgHandler(i.request);
      DoSetNetType();
      CheckWifiLoginStatus(i.loginOk);
      DoSetIpType();
      CheckDhcpSetResult(i.gotIp, i.dhcpFinishTime);
    }
  }
}
