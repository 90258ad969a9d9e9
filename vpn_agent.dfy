/**
 * The reconciler of the daemon generation (daemon/vpnAgent.go): each tick
 * reads the device's peers and the accounts that have a key, connects the
 * active ones the device lacks and disconnects the lapsed ones it has.
 * Writes to the device are the returned command list; the store is only
 * read.
 */
module VpnAgent {
  import opened Wrappers
  import PubKey
  import Base64
  import DaemonStore
  import opened WireGuard

  type Row = DaemonStore.Row

  /** The key an account's text names, when `KeyFromBase64` accepts it. */
  function KeyOf(r: Row): Option<Key>
  {
    if r.publicKeyB64.Some? && DaemonStore.KeyFromBase64(r.publicKeyB64.value).err.None?
    then DaemonStore.KeyFromBase64(r.publicKeyB64.value).key
    else None
  }

  /** What the tick does for one account: nothing, one device command, or a nil-pointer panic. */
  datatype Step = Skip | Send(command: Command) | Crash

  /** `ConnectPeer`'s allowed IPs: the IPv4 address as /32, then the IPv6 slot as /128 when it is set. */
  function AllowedIPs(r: Row): (ips: seq<IPNet>)
    requires r.ipv4.Some?
    ensures |ips| == (if r.ipv6.Some? then 2 else 1)
    ensures ips[0] == IPNet(r.ipv4.value, 32, 32)
    ensures r.ipv6.Some? ==> ips[1] == IPNet(r.ipv6.value, 128, 128)
  {
    [IPNet(r.ipv4.value, 32, 32)] + (if r.ipv6.Some? then [IPNet(r.ipv6.value, 128, 128)] else [])
  }

  /**
   * `ConnectPeer` as written: a key `KeyFromBase64` refuses is an error and
   * no command; otherwise the IPv4 pointer is dereferenced, which panics
   * for an account that has no address yet.
   */
  function ConnectStepAsWritten(r: Row): Step
    requires r.publicKeyB64.Some?
  {
    var k := DaemonStore.KeyFromBase64(r.publicKeyB64.value);
    if k.err.Some? then Skip
    else if r.ipv4.None? then Crash
    else Send(Connect(k.key.value, AllowedIPs(r)))
  }

  /** `ConnectPeer` returning an error for an account without an address, as it does for a bad key. */
  function ConnectStep(r: Row): Step
    requires r.publicKeyB64.Some?
  {
    var k := DaemonStore.KeyFromBase64(r.publicKeyB64.value);
    if k.err.Some? || r.ipv4.None? then Skip
    else Send(Connect(k.key.value, AllowedIPs(r)))
  }

  /** `DisconnectPeer`: a removal of the account's key, or nothing when the key is refused. */
  function DisconnectStep(r: Row): Step
    requires r.publicKeyB64.Some?
  {
    var k := DaemonStore.KeyFromBase64(r.publicKeyB64.value);
    if k.err.Some? then Skip else Send(Disconnect(k.key.value))
  }

  /**
   * One account in `Tick`. The key text is dereferenced first (nil panics);
   * an undecodable key yields a nil key, dereferenced (and panicking) as
   * soon as the account is not exactly at its expiry. `connectStep` is
   * `ConnectPeer`, as written or corrected.
   */
  function DecideWith(now: int, connected: set<Key>, r: Row, asWritten: bool): Step
  {
    if r.publicKeyB64.None? then Crash
    else
      var k := DaemonStore.KeyFromBase64(r.publicKeyB64.value).key;
      if now < r.expiry then
        if k.None? then Crash
        else if k.value in connected then Skip
        else if asWritten then ConnectStepAsWritten(r) else ConnectStep(r)
      else if now > r.expiry then
        if k.None? then Crash
        else if k.value !in connected then Skip
        else DisconnectStep(r)
      else Skip
  }

  function Decide(now: int, connected: set<Key>, r: Row): Step
  {
    DecideWith(now, connected, r, false)
  }

  /** The device commands of a tick, and whether it ended in a panic after sending them. */
  datatype TickPlan = TickPlan(commands: seq<Command>, crashed: bool)

  /**
   * The accounts in listing order, each decided by `DecideWith` (as written
   * or corrected); a failed command does not stop the tick, a panic does.
   */
  function Plan(now: int, connected: set<Key>, rows: seq<Row>, asWritten: bool): TickPlan
    decreases |rows|
  {
    if rows == [] then TickPlan([], false)
    else match DecideWith(now, connected, rows[0], asWritten)
      case Crash => TickPlan([], true)
      case Skip => Plan(now, connected, rows[1..], asWritten)
      case Send(c) =>
        var rest := Plan(now, connected, rows[1..], asWritten);
        TickPlan([c] + rest.commands, rest.crashed)
  }

  /** How a tick ended. */
  datatype TickOutcome =
    | DeviceUnavailable
    | StoreUnavailable
    | Reconciled(plan: TickPlan)

  /**
   * `Tick`: read the device (an error ends the tick), collect its peer keys,
   * read the accounts with a key (an error ends the tick), and decide each
   * with `ConnectPeer` as written, so an active account without an address
   * that the device lacks panics the tick.
   */
  method Tick(now: int, device: Result<seq<Key>, string>, listing: Result<seq<Row>, string>)
    returns (outcome: TickOutcome)
    ensures device.Failure? ==> outcome == DeviceUnavailable
    ensures device.Success? && listing.Failure? ==> outcome == StoreUnavailable
    ensures device.Success? && listing.Success? ==>
              outcome == Reconciled(Plan(now, (set k | k in device.value), listing.value, true))
  {
    if device.Failure? {
      return DeviceUnavailable;
    }
    var connectedToWg := DeviceKeys(device.value);
    if listing.Failure? {
      return StoreUnavailable;
    }
    var rows := listing.value;
    var sent: seq<Command> := [];
    var j := 0;
    while j < |rows|
      invariant 0 <= j <= |rows|
      invariant Plan(now, connectedToWg, rows, true) == Resume(sent, Plan(now, connectedToWg, rows[j..], true))
    {
      var step := DecideWith(now, connectedToWg, rows[j], true);
      PlanUnroll(now, connectedToWg, rows, j, true);
      if step.Crash? {
        return Reconciled(TickPlan(sent, true));
      }
      if step.Send? {
        ResumeSend(sent, step.command, Plan(now, connectedToWg, rows[j + 1..], true));
        sent := sent + [step.command];
      }
      j := j + 1;
    }
    assert rows[j..] == [];
    outcome := Reconciled(TickPlan(sent, false));
  }

  /** The peer keys `Tick` gathers from the device into its lookup table. */
  method DeviceKeys(peers: seq<Key>) returns (connectedToWg: set<Key>)
    ensures connectedToWg == set k | k in peers
  {
    connectedToWg := {};
    var i := 0;
    while i < |peers|
      invariant 0 <= i <= |peers|
      invariant connectedToWg == set k | k in peers[..i]
    {
      assert peers[..i + 1] == peers[..i] + [peers[i]];
      connectedToWg := connectedToWg + {peers[i]};
      i := i + 1;
    }
    assert peers[..i] == peers;
  }

  /** The rest of a tick's plan behind the commands already sent. */
  function Resume(sent: seq<Command>, rest: TickPlan): TickPlan
  {
    TickPlan(sent + rest.commands, rest.crashed)
  }

  lemma ResumeSend(sent: seq<Command>, c: Command, rest: TickPlan)
    ensures Resume(sent, TickPlan([c] + rest.commands, rest.crashed)) == Resume(sent + [c], rest)
  {
    assert sent + ([c] + rest.commands) == sent + [c] + rest.commands;
  }

  /** One step of the plan over a suffix of the listing. */
  lemma PlanUnroll(now: int, connected: set<Key>, rows: seq<Row>, j: nat, asWritten: bool)
    requires j < |rows|
    ensures Plan(now, connected, rows[j..], asWritten) ==
              match DecideWith(now, connected, rows[j], asWritten)
              case Crash => TickPlan([], true)
              case Skip => Plan(now, connected, rows[j + 1..], asWritten)
              case Send(c) =>
                var rest := Plan(now, connected, rows[j + 1..], asWritten);
                TickPlan([c] + rest.commands, rest.crashed)
  {
    assert rows[j..][0] == rows[j];
    assert rows[j..][1..] == rows[j + 1..];
  }

  /**
   * For an account with a valid key: a connect exactly when it is active,
   * addressed and absent from the device; a disconnect exactly when it has
   * lapsed and is present; nothing at the instant of expiry.
   */
  lemma DecideValidKey(now: int, connected: set<Key>, r: Row)
    requires KeyOf(r).Some?
    ensures var k := KeyOf(r).value;
            Decide(now, connected, r) ==
              if now < r.expiry && k !in connected && r.ipv4.Some? then Send(Connect(k, AllowedIPs(r)))
              else if now > r.expiry && k in connected then Send(Disconnect(k))
              else Skip
  {
  }

  /** A command names the key of the account it came from. */
  lemma SendNamesKey(now: int, connected: set<Key>, r: Row, asWritten: bool)
    requires DecideWith(now, connected, r, asWritten).Send?
    ensures KeyOf(r) == Some(DecideWith(now, connected, r, asWritten).command.key)
  {
  }

  /** The commands of a tick that did not panic are exactly the commands its accounts decided, and none panicked. */
  lemma {:induction false} PlanCollects(now: int, connected: set<Key>, rows: seq<Row>, asWritten: bool)
    requires !Plan(now, connected, rows, asWritten).crashed
    ensures forall i :: 0 <= i < |rows| ==> DecideWith(now, connected, rows[i], asWritten) != Crash
    ensures forall c :: c in Plan(now, connected, rows, asWritten).commands <==>
              exists i :: 0 <= i < |rows| && DecideWith(now, connected, rows[i], asWritten) == Send(c)
    decreases |rows|
  {
    if rows != [] {
      PlanCollects(now, connected, rows[1..], asWritten);
      forall c | exists i :: 0 <= i < |rows| && DecideWith(now, connected, rows[i], asWritten) == Send(c)
        ensures c in Plan(now, connected, rows, asWritten).commands
      {
        var i :| 0 <= i < |rows| && DecideWith(now, connected, rows[i], asWritten) == Send(c);
        if i > 0 {
          assert rows[1..][i - 1] == rows[i];
        }
      }
      forall i | 0 <= i < |rows|
        ensures DecideWith(now, connected, rows[i], asWritten) != Crash
      {
        if i > 0 {
          assert rows[1..][i - 1] == rows[i];
        }
      }
    }
  }

  /** No two accounts in the listing name the same valid key. */
  ghost predicate DistinctKeys(rows: seq<Row>)
  {
    forall i, j :: 0 <= i < |rows| && 0 <= j < |rows| && i != j && KeyOf(rows[i]).Some? ==>
      KeyOf(rows[i]) != KeyOf(rows[j])
  }

  /** With distinct keys, no key is both connected and disconnected by the same tick. */
  lemma AcceptedKeysDisjoint(now: int, connected: set<Key>, rows: seq<Row>, refused: set<Command>, asWritten: bool)
    requires DistinctKeys(rows) && !Plan(now, connected, rows, asWritten).crashed
    ensures var ok := Accepted(Plan(now, connected, rows, asWritten).commands, refused);
            ConnectedKeys(ok) !! DisconnectedKeys(ok)
  {
    var ok := Accepted(Plan(now, connected, rows, asWritten).commands, refused);
    PlanCollects(now, connected, rows, asWritten);
    forall k | k in ConnectedKeys(ok)
      ensures k !in DisconnectedKeys(ok)
    {
      var c1 :| c1 in ok && c1.Connect? && c1.key == k;
      var j1 :| 0 <= j1 < |rows| && DecideWith(now, connected, rows[j1], asWritten) == Send(c1);
      SendNamesKey(now, connected, rows[j1], asWritten);
      forall c2 | c2 in ok && c2.key == k
        ensures c2 == c1
      {
        var j2 :| 0 <= j2 < |rows| && DecideWith(now, connected, rows[j2], asWritten) == Send(c2);
        SendNamesKey(now, connected, rows[j2], asWritten);
      }
    }
  }

  /** Per account: after the accepted commands, the second tick repeats exactly this account's refused command. */
  lemma SecondDecision(now: int, connected: set<Key>, rows: seq<Row>, refused: set<Command>, i: nat, asWritten: bool)
    requires DistinctKeys(rows) && !Plan(now, connected, rows, asWritten).crashed && i < |rows|
    ensures var cmds := Plan(now, connected, rows, asWritten).commands;
            var after := ApplyAll(connected, Accepted(cmds, refused));
            var first := DecideWith(now, connected, rows[i], asWritten);
            DecideWith(now, after, rows[i], asWritten) == if first.Send? && first.command in refused then first else Skip
  {
    var cmds := Plan(now, connected, rows, asWritten).commands;
    var ok := Accepted(cmds, refused);
    PlanCollects(now, connected, rows, asWritten);
    var r := rows[i];
    var first := DecideWith(now, connected, r, asWritten);
    // A command in the accepted list for the key of `r` can only be `r`'s own.
    forall c | c in ok && KeyOf(r) == Some(c.key)
      ensures first == Send(c)
    {
      var j :| 0 <= j < |rows| && DecideWith(now, connected, rows[j], asWritten) == Send(c);
      SendNamesKey(now, connected, rows[j], asWritten);
    }
    AcceptedKeysDisjoint(now, connected, rows, refused, asWritten);
    ApplyAllAsSets(connected, ok);
    if KeyOf(r).Some? {
      var k := KeyOf(r).value;
      if first.Send? {
        SendNamesKey(now, connected, r, asWritten);
        assert first.command in cmds;
      }
      assert k in ConnectedKeys(ok) ==> first.Send? && first.command.Connect? && first.command !in refused;
      assert k in DisconnectedKeys(ok) ==> first.Send? && first.command.Disconnect? && first.command !in refused;
    }
  }

  /**
   * Idempotence: with the same `now`, a second tick over the device as the
   * accepted commands left it sends exactly the commands the device refused
   * (none, when it refused none).
   */
  lemma SecondTickRepeatsOnlyRefused(now: int, connected: set<Key>, rows: seq<Row>, refused: set<Command>, asWritten: bool)
    requires DistinctKeys(rows) && !Plan(now, connected, rows, asWritten).crashed
    ensures var cmds := Plan(now, connected, rows, asWritten).commands;
            Plan(now, ApplyAll(connected, Accepted(cmds, refused)), rows, asWritten) == TickPlan(Refused(cmds, refused), false)
  {
    var cmds := Plan(now, connected, rows, asWritten).commands;
    var after := ApplyAll(connected, Accepted(cmds, refused));
    forall i | 0 <= i < |rows|
      ensures var first := DecideWith(now, connected, rows[i], asWritten);
              DecideWith(now, after, rows[i], asWritten) == if first.Send? && first.command in refused then first else Skip
    {
      SecondDecision(now, connected, rows, refused, i, asWritten);
    }
    PlanCollects(now, connected, rows, asWritten);
    SecondTickSuffix(now, connected, after, rows, refused, 0, asWritten);
    assert rows[0..] == rows;
  }

  lemma {:induction false} SecondTickSuffix(now: int, connected: set<Key>, after: set<Key>, rows: seq<Row>,
                                            refused: set<Command>, j: nat, asWritten: bool)
    requires j <= |rows|
    requires forall i :: 0 <= i < |rows| ==> DecideWith(now, connected, rows[i], asWritten) != Crash
    requires forall i :: 0 <= i < |rows| ==>
               var first := DecideWith(now, connected, rows[i], asWritten);
               DecideWith(now, after, rows[i], asWritten) == if first.Send? && first.command in refused then first else Skip
    ensures var p := Plan(now, connected, rows[j..], asWritten);
            !p.crashed && Plan(now, after, rows[j..], asWritten) == TickPlan(Refused(p.commands, refused), false)
    decreases |rows| - j
  {
    if j < |rows| {
      SecondTickSuffix(now, connected, after, rows, refused, j + 1, asWritten);
      assert rows[j..][0] == rows[j];
      assert rows[j..][1..] == rows[j + 1..];
      var p := Plan(now, connected, rows[j + 1..], asWritten);
      match DecideWith(now, connected, rows[j], asWritten)
      case Skip =>
      case Send(c) =>
        assert ([c] + p.commands)[0] == c && ([c] + p.commands)[1..] == p.commands;
    } else {
      assert rows[j..] == [];
    }
  }

  /** The bug in `ConnectPeer`: an active, unaddressed account whose key the device lacks panics the daemon. */
  lemma UnaddressedPeerPanics(now: int, k: PubKey.Key)
    ensures var r := DaemonStore.Row("ACCOUNT", now + 1, Some(PubKey.MarshalPublicKey(k)), None, None, false);
            DecideWith(now, {}, r, true) == Crash && Decide(now, {}, r) == Skip
  {
    DaemonStore.KeyFromBase64Marshal(k);
  }

  /** Where every account has an address, `ConnectPeer` as written and corrected plan the same tick. */
  lemma {:induction false} PlansAgreeWhenAddressed(now: int, connected: set<Key>, rows: seq<Row>)
    requires forall i :: 0 <= i < |rows| ==> rows[i].ipv4.Some?
    ensures Plan(now, connected, rows, true) == Plan(now, connected, rows, false)
    decreases |rows|
  {
    if rows != [] {
      assert DecideWith(now, connected, rows[0], true) == DecideWith(now, connected, rows[0], false);
      PlansAgreeWhenAddressed(now, connected, rows[1..]);
    }
  }

  /**
   * Two texts for one key defeat idempotence. The unique index compares
   * texts and the decoder skips line feeds, so `text` and "\n" + `text` can
   * both be stored. With the active account listed before the lapsed one,
   * a tick removes the key, the next adds it back, and the device is where
   * it started: the agent flaps on every tick.
   */
  lemma TwoTextsOneKeyFlaps(now: int, k: PubKey.Key, ip: seq<PubKey.byte>)
    ensures var text := PubKey.MarshalPublicKey(k);
            var active := DaemonStore.Row("ACTIVE", now + 1, Some(text), Some(ip), None, false);
            var lapsed := DaemonStore.Row("LAPSED", now - 1, Some("\n" + text), Some(ip), None, false);
            var rows := [active, lapsed];
            var first := Plan(now, {k}, rows, true);
            var second := Plan(now, ApplyAll({k}, Accepted(first.commands, {})), rows, true);
            active.publicKeyB64 != lapsed.publicKeyB64 && !DistinctKeys(rows) &&
            first == TickPlan([Disconnect(k)], false) &&
            second == TickPlan([Connect(k, AllowedIPs(active))], false) &&
            second.commands != Refused(first.commands, {}) &&
            ApplyAll(ApplyAll({k}, first.commands), second.commands) == {k}
  {
    var text := PubKey.MarshalPublicKey(k);
    assert ("\n" + text)[0] == '\n' && ("\n" + text)[1..] == text;
    assert Base64.StripNewlines("\n" + text) == Base64.StripNewlines(text);
    DaemonStore.KeyFromBase64Marshal(k);
    var active := DaemonStore.Row("ACTIVE", now + 1, Some(text), Some(ip), None, false);
    var lapsed := DaemonStore.Row("LAPSED", now - 1, Some("\n" + text), Some(ip), None, false);
    var rows := [active, lapsed];
    assert KeyOf(rows[0]) == KeyOf(rows[1]) == Some(k);
    assert DaemonStore.KeyFromBase64("\n" + text) == DaemonStore.KeyLookup(Some(k), None);
    assert DecideWith(now, {k}, active, true) == Skip;
    assert DecideWith(now, {k}, lapsed, true) == Send(Disconnect(k));
    assert rows[1..] == [lapsed] && rows[1..][1..] == [];
    assert rows[0] == active && rows[1..][0] == lapsed;
    assert Plan(now, {k}, [lapsed], true) == TickPlan([Disconnect(k)], false);
    assert Plan(now, {k}, rows, true) == Plan(now, {k}, [lapsed], true);
    assert Plan(now, {}, [lapsed], true) == TickPlan([], false);
    assert ApplyAll({k}, Accepted([Disconnect(k)], {})) == {};
    assert DecideWith(now, {}, active, true) == Send(Connect(k, AllowedIPs(active)));
    assert DecideWith(now, {}, lapsed, true) == Skip;
  }
}
