/** How the app classifies a runtime permission, and the per-permission flag it
    keeps in its preferences store. */
module Permissions {

  datatype PermissionStatus = Granted | Denied | DeniedForever | Unknown

  /** The decision of `checkPermission`: granted first; otherwise requested
      before without a rationale is denied for good, a rationale is a plain
      denial, and the rest is unknown. */
  function Classify(granted: bool, shouldShowRationale: bool, requestedBefore: bool): PermissionStatus
  {
    if granted then Granted
    else if requestedBefore && !shouldShowRationale then DeniedForever
    else if shouldShowRationale then Denied
    else Unknown
  }

  /** Each outcome, stated as the exact set of inputs that produce it. */
  lemma ClassifyCases(granted: bool, shouldShowRationale: bool, requestedBefore: bool)
    ensures var s := Classify(granted, shouldShowRationale, requestedBefore);
      && (s == Granted <==> granted)
      && (s == DeniedForever <==> !granted && requestedBefore && !shouldShowRationale)
      && (s == Denied <==> !granted && shouldShowRationale)
      && (s == Unknown <==> !granted && !requestedBefore && !shouldShowRationale)
  {
  }

  /** The preferences store: one flag per permission name, absent meaning false. */
  class PermissionStore {
    var prefs: map<string, bool>

    constructor()
      ensures prefs == map[]
    {
      prefs := map[];
    }

    /** `isPermissionRequestedBefore`: the stored flag, false when absent. */
    function RequestedBefore(permission: string): bool
      reads this
    {
      if permission in prefs then prefs[permission] else false
    }

    /** `setPermissionRequested`: the flag becomes true. */
    method SetRequested(permission: string)
      modifies this
      ensures prefs == old(prefs)[permission := true]
      ensures RequestedBefore(permission)
    {
      prefs := prefs[permission := true];
    }

    /** `setPermissionAllowed`: the flag becomes false. */
    method SetAllowed(permission: string)
      modifies this
      ensures prefs == old(prefs)[permission := false]
      ensures !RequestedBefore(permission)
    {
      prefs := prefs[permission := false];
    }
  }

  /** `checkPermission`: a granted permission clears its flag in the store;
      otherwise the store is only read. The state of the permission itself
      (granted, rationale) comes in as parameters. */
  method CheckPermission(store: PermissionStore, permission: string, granted: bool, shouldShowRationale: bool)
    returns (status: PermissionStatus)
    modifies store
    ensures status == Classify(granted, shouldShowRationale, old(store.RequestedBefore(permission)))
    ensures granted ==> store.prefs == old(store.prefs)[permission := false]
    ensures !granted ==> store.prefs == old(store.prefs)
  {
    if granted {
      store.SetAllowed(permission);
      status := Granted;
    } else {
      var requestedBefore := store.RequestedBefore(permission);
      status := Classify(false, shouldShowRationale, requestedBefore);
    }
  }

  /** After a check that found the permission granted, a later revocation
      without a rationale is classified as unknown, not as denied for good. */
  method GrantedResetsHistory(store: PermissionStore, permission: string, rationale: bool)
    returns (first: PermissionStatus, second: PermissionStatus)
    modifies store
    ensures first == Granted
    ensures second == (if rationale then Denied else Unknown)
  {
    first := CheckPermission(store, permission, true, rationale);
    second := CheckPermission(store, permission, false, rationale);
  }
}
