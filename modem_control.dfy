/**
 * The legacy modem control glue of the board file: up to eight peers register a startup and a
 * shutdown hook with a context; when the baseband comes up or goes down, every registered hook of
 * that kind is called in registration order, but only on a real change of the on/off state. A
 * separate agent callback receives every raw state change once it is registered. Hook calls are
 * recorded in a trace, in the order they happen.
 */
module ModemControl {
  import opened KernelTypes

  const MDM_CTRL_MAX_PEERS := 8

  /** A function pointer, by identity. */
  type Hook = nat

  /** The opaque context pointer a peer registers with its hooks. */
  type Context = nat

  /** An entry of the peer table; a hook may be NULL. */
  datatype Peer = Peer(startup: Option<Hook>, shutdown: Option<Hook>, context: Context)

  /** A call made through a stored pointer: a peer hook with its context, or the agent callback
      with the new state and status. */
  datatype Call = PeerHook(hook: Hook, context: Context) | AgentChange(agent: Hook, state: int, status: int)

  /** The hook of p for the transition: startup when the baseband comes up, shutdown otherwise. */
  function HookOf(p: Peer, up: bool): Option<Hook>
  {
    if up then p.startup else p.shutdown
  }

  /** The calls one peer gets: its hook with its context, or nothing for a NULL hook. */
  function Fired(p: Peer, up: bool): (r: seq<Call>)
    ensures |r| <= 1
    ensures r == [] <==> HookOf(p, up).None?
  {
    if HookOf(p, up).Some? then [PeerHook(HookOf(p, up).value, p.context)] else []
  }

  /** The calls a transition makes over the peers ps, in index order. */
  function HookCalls(ps: seq<Peer>, up: bool): seq<Call>
  {
    if ps == [] then [] else Fired(ps[0], up) + HookCalls(ps[1..], up)
  }

  /** Calling the hooks of one more peer extends the calls by that peer's. */
  lemma {:induction false} HookCallsAppend(ps: seq<Peer>, p: Peer, up: bool)
    ensures HookCalls(ps + [p], up) == HookCalls(ps, up) + Fired(p, up)
  {
    if ps == [] {
      assert [p][1..] == [];
    } else {
      assert (ps + [p])[1..] == ps[1..] + [p];
      HookCallsAppend(ps[1..], p, up);
    }
  }

  /** Every peer with a non-NULL hook is called exactly once, in index order: with all hooks set
      the calls are the peers' hooks one for one. */
  lemma {:induction false} HookCallsOnePerPeer(ps: seq<Peer>, up: bool)
    requires forall i :: 0 <= i < |ps| ==> HookOf(ps[i], up).Some?
    ensures |HookCalls(ps, up)| == |ps|
    ensures forall i :: 0 <= i < |ps| ==> HookCalls(ps, up)[i] == PeerHook(HookOf(ps[i], up).value, ps[i].context)
  {
    if ps != [] {
      HookCallsOnePerPeer(ps[1..], up);
      forall i | 0 <= i < |ps|
        ensures HookCalls(ps, up)[i] == PeerHook(HookOf(ps[i], up).value, ps[i].context)
      {
        if i > 0 {
          assert ps[1..][i - 1] == ps[i];
        }
      }
    }
  }

  /** No call is made that was not registered: each call is the hook of some peer. */
  lemma {:induction false} HookCallsOnlyRegistered(ps: seq<Peer>, up: bool, c: Call)
    requires c in HookCalls(ps, up)
    ensures c.PeerHook? && exists i :: 0 <= i < |ps| && HookOf(ps[i], up) == Some(c.hook) && ps[i].context == c.context
  {
    if c in Fired(ps[0], up) {
      assert HookOf(ps[0], up) == Some(c.hook);
    } else {
      HookCallsOnlyRegistered(ps[1..], up, c);
      var i :| 0 <= i < |ps[1..]| && HookOf(ps[1..][i], up) == Some(c.hook) && ps[1..][i].context == c.context;
      assert ps[1..][i] == ps[i + 1];
    }
  }

  /** mot_on_bp_startup and mot_on_bp_shutdown as one step: the new state and the calls made.
      Nothing happens when the state already is the target. */
  function Switch(on: bool, target: bool, ps: seq<Peer>): (r: (bool, seq<Call>))
    ensures r.0 == target
    ensures on == target ==> r.1 == []
  {
    if on == target then (on, []) else (target, HookCalls(ps, target))
  }

  /** A second startup (or shutdown) in a row calls nothing, and since the state starts on, a
      startup before any shutdown calls nothing either. */
  lemma SwitchIdempotent(on: bool, target: bool, ps: seq<Peer>, ps': seq<Peer>)
    ensures Switch(Switch(on, target, ps).0, target, ps').1 == []
    ensures Switch(true, true, ps).1 == []
  {
  }

  /** A real change of state calls each registered hook of that kind once, in index order. */
  lemma SwitchOnChangeCallsHooks(on: bool, ps: seq<Peer>)
    requires forall i :: 0 <= i < |ps| ==> HookOf(ps[i], !on).Some?
    ensures |Switch(on, !on, ps).1| == |ps|
    ensures forall i :: 0 <= i < |ps| ==> Switch(on, !on, ps).1[i] == PeerHook(HookOf(ps[i], !on).value, ps[i].context)
  {
    HookCallsOnePerPeer(ps, !on);
  }

  /** The peer table, the on/off state and the agent callback. */
  class ModemCtrl {
    var peers: array<Peer>
    var count: nat
    var on: bool
    var agent: Option<Hook>
    /** Every call made through a stored pointer, oldest first. */
    var calls: seq<Call>

    ghost predicate Valid()
      reads this`peers, this`count
    {
      peers.Length == MDM_CTRL_MAX_PEERS && count <= MDM_CTRL_MAX_PEERS
    }

    /** The registered peers, in registration order. */
    function Registered(): seq<Peer>
      requires Valid()
      reads this`peers, this`count, peers
    {
      peers[..count]
    }

    /** The static initial state: an empty zeroed table, the state on, no agent. */
    constructor ()
      ensures Valid() && fresh(peers) && count == 0 && on && agent.None? && calls == []
    {
      peers := new Peer[MDM_CTRL_MAX_PEERS](_ => Peer(None, None, 0));
      count := 0;
      on := true;
      agent := None;
      calls := [];
    }

    /** mot_mdm_ctrl_peer_register: -ENOMEM with nothing changed on a full table; otherwise the
        entry goes into the next free slot and every earlier entry stays as it was. */
    method PeerRegister(startup: Option<Hook>, shutdown: Option<Hook>, context: Context) returns (r: int)
      requires Valid()
      modifies this`count, peers
      ensures Valid()
      ensures old(count) == MDM_CTRL_MAX_PEERS ==> r == -ENOMEM && count == old(count) && peers[..] == old(peers[..])
      ensures old(count) < MDM_CTRL_MAX_PEERS ==>
                r == 0 && count == old(count) + 1
                && peers[..] == old(peers[..])[old(count) := Peer(startup, shutdown, context)]
                && Registered() == old(Registered()) + [Peer(startup, shutdown, context)]
    {
      if count >= MDM_CTRL_MAX_PEERS {
        return -ENOMEM;
      }
      peers[count] := Peer(startup, shutdown, context);
      count := count + 1;
      assert peers[..count] == old(peers[..count]) + [Peer(startup, shutdown, context)];
      r := 0;
    }

    /** mot_on_bp_startup (target on) or mot_on_bp_shutdown (target off): on a change of state,
        each registered peer's hook of that kind in index order, then the new state. */
    method Transition(target: bool)
      requires Valid()
      modifies this`on, this`calls
      ensures on == target
      ensures calls == old(calls) + Switch(old(on), target, Registered()).1
    {
      if on == target {
        return;
      }
      for i := 0 to count
        invariant calls == old(calls) + HookCalls(peers[..i], target)
      {
        HookCallsAppend(peers[..i], peers[i], target);
        assert peers[..i + 1] == peers[..i] + [peers[i]];
        var hook := HookOf(peers[i], target);
        if hook.Some? {
          calls := calls + [PeerHook(hook.value, peers[i].context)];
        }
      }
      on := target;
    }

    /** mot_on_bp_startup. */
    method BpStartup()
      requires Valid()
      modifies this`on, this`calls
      ensures on
      ensures calls == old(calls) + (if old(on) then [] else HookCalls(Registered(), true))
    {
      Transition(true);
    }

    /** mot_on_bp_shutdown. */
    method BpShutdown()
      requires Valid()
      modifies this`on, this`calls
      ensures !on
      ensures calls == old(calls) + (if old(on) then HookCalls(Registered(), false) else [])
    {
      Transition(false);
    }

    /** mot_mdm_ctrl_agent_register: the callback replaces any earlier one; a NULL callback
        unregisters the agent. */
    method AgentRegister(change: Option<Hook>) returns (r: int)
      modifies this`agent
      ensures r == 0 && agent == change
    {
      agent := change;
      r := 0;
    }

    /** mot_on_bp_change: the raw state change goes to the agent callback, if one is registered. */
    method BpChange(state: int, status: int)
      modifies this`calls
      ensures calls == old(calls) + (if agent.Some? then [AgentChange(agent.value, state, status)] else [])
    {
      if agent.Some? {
        calls := calls + [AgentChange(agent.value, state, status)];
      }
    }
  }
}
