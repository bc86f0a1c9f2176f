/** Starting and stopping the local heartbeat. */
module Heartbeat {
  import opened Wrappers
  import opened HueState

  /** Turns the local connection on, but only when a bridge is connected;
      otherwise nothing happens and the SDK is not called. */
  function EnableLocalHeartbeat(s: ManagerState): (r: Step)
    ensures SameExceptHeartbeat(s, r.after)
    ensures r.after.heartbeatOn <==> s.heartbeatOn || s.connectedBridge.Some?
    ensures s.connectedBridge.None? ==> r.after == s && r.calls == []
    ensures s.connectedBridge.Some? ==> r.after.heartbeatOn && r.calls == [EnableLocalConnection]
  {
    if s.connectedBridge != None then
      Step(s.(heartbeatOn := true), [EnableLocalConnection])
    else
      Step(s, [])
  }

  /** Turns the local connection off whatever the state, and changes nothing else. */
  function DisableLocalHeartbeat(s: ManagerState): (r: Step)
    ensures SameExceptHeartbeat(s, r.after)
    ensures !r.after.heartbeatOn
    ensures r.calls == [DisableLocalConnection]
  {
    Step(s.(heartbeatOn := false), [DisableLocalConnection])
  }

  /** Enabling a second time reaches the state the first call reached. The SDK
      is called once more, though, when a bridge is connected. */
  lemma EnableIdempotent(s: ManagerState)
    ensures EnableLocalHeartbeat(EnableLocalHeartbeat(s).after).after == EnableLocalHeartbeat(s).after
    ensures s.connectedBridge.Some? ==>
      EnableLocalHeartbeat(EnableLocalHeartbeat(s).after).calls == [EnableLocalConnection]
  {
  }

  /** Disabling a second time changes nothing further. */
  lemma DisableIdempotent(s: ManagerState)
    ensures DisableLocalHeartbeat(DisableLocalHeartbeat(s).after).after == DisableLocalHeartbeat(s).after
  {
  }

  /** Neither heartbeat operation can switch the heartbeat on without a
      connected bridge. */
  lemma HeartbeatOperationsKeepGuard(s: ManagerState)
    requires HeartbeatGuarded(s)
    ensures HeartbeatGuarded(EnableLocalHeartbeat(s).after)
    ensures HeartbeatGuarded(DisableLocalHeartbeat(s).after)
  {
  }

  /** Disabling undoes enabling when the heartbeat was off, and enabling after
      disabling leaves the heartbeat on exactly when a bridge is connected. */
  lemma DisableUndoesEnable(s: ManagerState)
    ensures !s.heartbeatOn ==> DisableLocalHeartbeat(EnableLocalHeartbeat(s).after).after == s
    ensures EnableLocalHeartbeat(DisableLocalHeartbeat(s).after).after.heartbeatOn <==> s.connectedBridge.Some?
  {
  }
}
