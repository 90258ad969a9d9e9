/**
 * The WireGuard device as the reconcilers see it: the set of peer keys it
 * holds, and the peer configurations they send it.
 */
module WireGuard {
  import PubKey

  type Key = PubKey.Key

  /** A `net.IPNet`: address bytes and a `net.CIDRMask(ones, bits)`. */
  datatype IPNet = IPNet(ip: seq<PubKey.byte>, ones: nat, bits: nat)

  /** One `ConfigureDevice` call with a single peer: add it with its allowed IPs, or remove it. */
  datatype Command =
    | Connect(key: Key, allowedIPs: seq<IPNet>)
    | Disconnect(key: Key)

  /** The device's peer set after a command it accepted. */
  function ApplyCommand(device: set<Key>, c: Command): set<Key>
  {
    match c
    case Connect(k, _) => device + {k}
    case Disconnect(k) => device - {k}
  }

  /** The device's peer set after the commands, in order. */
  function ApplyAll(device: set<Key>, cmds: seq<Command>): set<Key>
    decreases |cmds|
  {
    if cmds == [] then device else ApplyAll(ApplyCommand(device, cmds[0]), cmds[1..])
  }

  function ConnectedKeys(cmds: seq<Command>): set<Key>
  {
    set c | c in cmds && c.Connect? :: c.key
  }

  function DisconnectedKeys(cmds: seq<Command>): set<Key>
  {
    set c | c in cmds && c.Disconnect? :: c.key
  }

  /** The commands the device accepted, in order; `refused` are those it answered with an error. */
  function Accepted(cmds: seq<Command>, refused: set<Command>): (r: seq<Command>)
    ensures forall c :: c in r <==> c in cmds && c !in refused
    decreases |cmds|
  {
    if cmds == [] then []
    else (if cmds[0] in refused then [] else [cmds[0]]) + Accepted(cmds[1..], refused)
  }

  /** The commands the device refused, in order. */
  function Refused(cmds: seq<Command>, refused: set<Command>): (r: seq<Command>)
    ensures forall c :: c in r <==> c in cmds && c in refused
    decreases |cmds|
  {
    if cmds == [] then []
    else (if cmds[0] in refused then [cmds[0]] else []) + Refused(cmds[1..], refused)
  }

  /** When no key is both added and removed, order does not matter: the removed keys go, the added keys come. */
  lemma {:induction false} ApplyAllAsSets(device: set<Key>, cmds: seq<Command>)
    requires ConnectedKeys(cmds) !! DisconnectedKeys(cmds)
    ensures ApplyAll(device, cmds) == (device - DisconnectedKeys(cmds)) + ConnectedKeys(cmds)
    decreases |cmds|
  {
    if cmds != [] {
      var c, rest := cmds[0], cmds[1..];
      assert cmds == [c] + rest;
      assert ConnectedKeys(cmds) == (if c.Connect? then {c.key} else {}) + ConnectedKeys(rest);
      assert DisconnectedKeys(cmds) == (if c.Disconnect? then {c.key} else {}) + DisconnectedKeys(rest);
      ApplyAllAsSets(ApplyCommand(device, c), rest);
    }
  }
}
