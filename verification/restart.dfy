/**
 * What xl does when the domain it watches shuts down: handle_domain_death
 * maps the shutdown reason through the domain's per-reason policy to a
 * restart decision, and create_domain's event loop turns that decision into
 * "restart" or "exit".
 */
module Restart {
  import opened Wrappers

  /** A domain id, or INVALID_DOMID. */
  datatype DomId = Invalid | Dom(id: nat)

  /** libxl_shutdown_reason, by its numeric code (0 .. 5; anything else is unknown). */
  datatype ShutdownReason = PowerOff | Reboot | Suspend | Crash | Watchdog | SoftReset | UnknownReason(code: int)

  function CodeOfReason(r: ShutdownReason): int {
    match r
    case PowerOff => 0
    case Reboot => 1
    case Suspend => 2
    case Crash => 3
    case Watchdog => 4
    case SoftReset => 5
    case UnknownReason(c) => c
  }

  /** The reason a numeric shutdown_reason code stands for. */
  function ReasonOfCode(code: int): (r: ShutdownReason)
    ensures r.UnknownReason? <==> code < 0 || code > 5
    ensures CodeOfReason(r) == code
  {
    match code
    case 0 => PowerOff
    case 1 => Reboot
    case 2 => Suspend
    case 3 => Crash
    case 4 => Watchdog
    case 5 => SoftReset
    case _ => UnknownReason(code)
  }

  /** libxl_action_on_shutdown. */
  datatype Action = Destroy | Restart | RestartRename | Preserve | CoredumpDestroy | CoredumpRestart | SoftResetAction

  /** The on_poweroff / on_reboot / on_crash / on_watchdog / on_soft_reset settings. */
  datatype Policy = Policy(
    onPoweroff: Action,
    onReboot: Action,
    onCrash: Action,
    onWatchdog: Action,
    onSoftReset: Action)

  /** DOMAIN_RESTART_NONE / _NORMAL / _RENAME / _SOFT_RESET. */
  datatype Decision = NoRestart | RestartInPlace | RestartWithRename | RestartWithSoftReset

  /** What handle_domain_death decided and did. */
  datatype Death = Death(
    decision: Decision,
    domid: DomId,      // *r_domid afterwards
    coreDumped: bool,  // libxl_domain_core_dump was attempted
    reloaded: bool,    // reload_domain_config was called
    destroyed: bool)   // libxl_domain_destroy was called

  /** The first switch: the configured action for a reason (None: the domain suspended). */
  function ActionFor(reason: ShutdownReason, policy: Policy): Option<Action> {
    match reason
    case PowerOff => Some(policy.onPoweroff)
    case Reboot => Some(policy.onReboot)
    case Suspend => None
    case Crash => Some(policy.onCrash)
    case Watchdog => Some(policy.onWatchdog)
    case SoftReset => Some(policy.onSoftReset)
    case UnknownReason(_) => Some(Destroy)
  }

  predicate IsCoredump(a: Action) {
    a == CoredumpDestroy || a == CoredumpRestart
  }

  /** After dumping core, the coredump actions act as their plain counterparts. */
  function Collapse(a: Action): (b: Action)
    ensures !IsCoredump(b)
    ensures !IsCoredump(a) ==> b == a
  {
    if a == CoredumpDestroy then Destroy
    else if a == CoredumpRestart then Restart
    else a
  }

  /** The second switch, on an action that is no longer a coredump one. */
  function Apply(a: Action, domid: DomId, dumped: bool): Death
    requires !IsCoredump(a)
  {
    match a
    case Preserve => Death(NoRestart, domid, dumped, false, false)
    case RestartRename => Death(RestartWithRename, domid, dumped, true, false)
    // RESTART falls through into DESTROY
    case Restart => Death(RestartInPlace, Invalid, dumped, true, true)
    case Destroy => Death(NoRestart, Invalid, dumped, false, true)
    case SoftResetAction => Death(RestartWithSoftReset, domid, dumped, true, false)
  }

  /** The action that finally applies: the configured one, coredump variants collapsed. */
  function EffectiveAction(reason: ShutdownReason, policy: Policy): Option<Action> {
    match ActionFor(reason, policy)
    case None => None
    case Some(a) => Some(Collapse(a))
  }

  function HandleDomainDeath(reason: ShutdownReason, policy: Policy, domid: DomId): (d: Death)
    // a suspended domain is left alone
    ensures reason == Suspend ==> d == Death(NoRestart, domid, false, false, false)
    // an unknown reason is treated as "destroy"
    ensures reason.UnknownReason? ==> d == Death(NoRestart, Invalid, false, false, true)
    ensures EffectiveAction(reason, policy) == Some(Restart) ==>
      d.decision == RestartInPlace && d.destroyed && d.domid == Invalid
    ensures EffectiveAction(reason, policy) == Some(Destroy) ==>
      d.decision == NoRestart && d.destroyed && d.domid == Invalid
    ensures EffectiveAction(reason, policy) == Some(Preserve) ==>
      d.decision == NoRestart && !d.destroyed && d.domid == domid
    ensures EffectiveAction(reason, policy) == Some(RestartRename) ==>
      d.decision == RestartWithRename && !d.destroyed && d.domid == domid
    ensures EffectiveAction(reason, policy) == Some(SoftResetAction) ==>
      d.decision == RestartWithSoftReset && !d.destroyed && d.domid == domid
    ensures d.coreDumped <==> ActionFor(reason, policy).Some? && IsCoredump(ActionFor(reason, policy).value)
    // the configuration is reloaded exactly for the decisions that restart
    ensures d.reloaded <==> d.decision != NoRestart
  {
    match ActionFor(reason, policy)
    case None => Death(NoRestart, domid, false, false, false)
    case Some(a) => Apply(Collapse(a), domid, IsCoredump(a))
  }

  /** Dumping core changes nothing but the dump itself. */
  lemma CoredumpCollapses(reason: ShutdownReason, policy: Policy, domid: DomId)
    requires ActionFor(reason, policy).Some? && IsCoredump(ActionFor(reason, policy).value)
    ensures HandleDomainDeath(reason, policy, domid).coreDumped
    ensures HandleDomainDeath(reason, policy, domid).(coreDumped := false)
         == Apply(EffectiveAction(reason, policy).value, domid, false)
  {
  }

  /** Two policies that agree on the setting for the reason at hand. */
  predicate SameSettingFor(reason: ShutdownReason, p1: Policy, p2: Policy) {
    match reason
    case PowerOff => p1.onPoweroff == p2.onPoweroff
    case Reboot => p1.onReboot == p2.onReboot
    case Crash => p1.onCrash == p2.onCrash
    case Watchdog => p1.onWatchdog == p2.onWatchdog
    case SoftReset => p1.onSoftReset == p2.onSoftReset
    case _ => true
  }

  /**
   * Each reason consults its own on_* setting and no other: policies that
   * agree on that setting lead to the same decision and the same actions.
   */
  lemma DecisionFollowsOwnSetting(reason: ShutdownReason, p1: Policy, p2: Policy, domid: DomId)
    requires SameSettingFor(reason, p1, p2)
    ensures HandleDomainDeath(reason, p1, domid) == HandleDomainDeath(reason, p2, domid)
  {
  }

  /** The watched id is given up exactly when the domain is destroyed. */
  lemma InvalidatedIffDestroyed(reason: ShutdownReason, policy: Policy, id: nat)
    ensures HandleDomainDeath(reason, policy, Dom(id)).domid == Invalid
        <==> HandleDomainDeath(reason, policy, Dom(id)).destroyed
  {
  }
}
