/** The in-app update policy: when to offer an update, of which kind, and what
    the snackbar says while a flexible update installs. The Play update service
    is represented by the values it reports. */
module Updates {
  import opened Wrappers
  import opened KotlinText
  import opened Resources
  import opened Snackbar

  /** Kotlin's `Int`. */
  type Int32 = x: int | IntMin <= x <= IntMax

  /** Two's-complement wrap-around of `Int` arithmetic. */
  function Wrap32(x: int): (r: Int32)
    ensures IntMin <= x <= IntMax ==> r == x
    ensures (r - x) % 0x1_0000_0000 == 0
  {
    (x - IntMin) % 0x1_0000_0000 + IntMin
  }

  const DaysBeforeOfferingFlexibleUpdate: int := 2
  const DaysBeforeOfferingImmediateUpdate: int := 5

  /** `BigDecimal(v).setScale(-4, RoundingMode.FLOOR).toInt()`: v floored to a
      multiple of 10000 (toward minus infinity), truncated to an `Int`. */
  function MajorVersionCode(v: Int32): Int32
  {
    Wrap32((v / 10000) * 10000)
  }

  /** For a version code the Play store accepts (non-negative) this is the
      greatest multiple of 10000 not above it. */
  lemma MajorVersionCodeSpec(v: Int32, m: int)
    requires v >= 0
    ensures var r := MajorVersionCode(v);
      && r % 10000 == 0 && r <= v < r + 10000
      && (m % 10000 == 0 && m <= v ==> m <= r)
  {
    var r := (v / 10000) * 10000;
    assert 0 <= r <= v;
    if m % 10000 == 0 && m <= v {
      assert m == (m / 10000) * 10000;
      assert m / 10000 <= v / 10000;
    }
  }

  /** `isMajorVersionUpdate`: the major codes differ by at least 10000. */
  predicate IsMajorVersionUpdate(update: Int32, current: Int32)
  {
    Wrap32(MajorVersionCode(update) - MajorVersionCode(current)) >= 10000
  }

  /** For non-negative codes: a major update is exactly one with a greater
      ten-thousands digit group, and so is newer. */
  lemma MajorVersionUpdateSpec(update: Int32, current: Int32)
    requires update >= 0 && current >= 0
    ensures IsMajorVersionUpdate(update, current) <==> update / 10000 > current / 10000
    ensures IsMajorVersionUpdate(update, current) ==> update > current
  {
    MajorVersionCodeSpec(update, 0);
    MajorVersionCodeSpec(current, 0);
  }

  /** `clientVersionStalenessDays ?: -1`. */
  function Staleness(days: Option<Int32>): int
  {
    match days case Some(d) => d case None => -1
  }

  /** `shouldOfferImmediateUpdate`. */
  predicate ShouldOfferImmediate(update: Int32, stalenessDays: Option<Int32>, current: Int32)
  {
    Staleness(stalenessDays) >= DaysBeforeOfferingImmediateUpdate || IsMajorVersionUpdate(update, current)
  }

  /** `shouldOfferFlexibleUpdate`. */
  predicate ShouldOfferFlexible(update: Int32, stalenessDays: Option<Int32>, current: Int32)
  {
    Staleness(stalenessDays) >= DaysBeforeOfferingFlexibleUpdate || Wrap32(update - current) >= 5
  }

  /** Unknown staleness never counts as stale: only a major update is then offered
      immediately, and only a gap of five version codes flexibly. */
  lemma UnknownStaleness(update: Int32, current: Int32)
    ensures ShouldOfferImmediate(update, None, current) <==> IsMajorVersionUpdate(update, current)
    ensures ShouldOfferFlexible(update, None, current) <==> Wrap32(update - current) >= 5
  {
  }

  /** Staleness that warrants an immediate update also warrants a flexible one. */
  lemma ImmediateStalenessIsFlexible(update: Int32, stalenessDays: Option<Int32>, current: Int32)
    requires Staleness(stalenessDays) >= DaysBeforeOfferingImmediateUpdate
    ensures ShouldOfferImmediate(update, stalenessDays, current)
    ensures ShouldOfferFlexible(update, stalenessDays, current)
  {
  }

  /** A major update need not be five version codes newer: 9999 to 10000 is
      major, so without staleness it qualifies for the immediate flow but not
      for the flexible test. */
  lemma MajorUpdateGap()
    ensures IsMajorVersionUpdate(10000, 9999)
    ensures !ShouldOfferFlexible(10000, None, 9999)
  {
    assert MajorVersionCode(10000) == 10000 && MajorVersionCode(9999) == 0;
  }

  // ---------------------------------------------------------------------------
  // checkForUpdates

  /** `UpdateAvailability.UPDATE_AVAILABLE`. */
  const UpdateAvailable: int := 2

  /** What the Play service reports about the available update. */
  datatype AppUpdateInfo = AppUpdateInfo(
    updateAvailability: int,
    immediateAllowed: bool,
    flexibleAllowed: bool,
    availableVersionCode: Int32,
    clientVersionStalenessDays: Option<Int32>)

  datatype UpdateType = Immediate | Flexible

  /** What one check does: nothing, or start the update flow of a type (when
      an activity is at hand) and, for a flexible update, register the
      install listener. */
  datatype CheckOutcome =
    | NoUpdate
    | Offered(updateType: UpdateType, flowStarted: bool, listenerRegistered: bool)

  /** The success listener of `checkForUpdates`. */
  method CheckForUpdates(info: AppUpdateInfo, current: Int32, hasActivity: bool) returns (outcome: CheckOutcome)
    ensures outcome.NoUpdate? <==> info.updateAvailability != UpdateAvailable
    ensures outcome.Offered? ==>
      && (outcome.updateType == Immediate <==>
            info.immediateAllowed && ShouldOfferImmediate(info.availableVersionCode, info.clientVersionStalenessDays, current))
      && outcome.flowStarted == hasActivity
      && (outcome.listenerRegistered <==> outcome.updateType == Flexible)
    // The flexible test never decides anything: whenever the immediate flow is
    // not chosen the flexible one is offered, whatever `flexibleAllowed` and
    // `shouldOfferFlexibleUpdate` say.
    ensures outcome.Offered? ==>
      var immediate := info.immediateAllowed && ShouldOfferImmediate(info.availableVersionCode, info.clientVersionStalenessDays, current);
      outcome == Offered(if immediate then Immediate else Flexible, hasActivity, !immediate)
  {
    if info.updateAvailability != UpdateAvailable {
      return NoUpdate;
    }
    var updateType := Flexible;
    if info.immediateAllowed && ShouldOfferImmediate(info.availableVersionCode, info.clientVersionStalenessDays, current) {
      updateType := Immediate;
    } else if info.flexibleAllowed && ShouldOfferFlexible(info.availableVersionCode, info.clientVersionStalenessDays, current) {
      updateType := Flexible;
    }
    outcome := Offered(updateType, hasActivity, updateType == Flexible);
  }

  // ---------------------------------------------------------------------------
  // Install listener

  /** `InstallStatus` codes of the Play update service. */
  const Downloading: int := 2
  const Failed: int := 5
  const Canceled: int := 6
  const Downloaded: int := 11

  /** The two restart buttons: the first shows the restart snackbar again, only
      the second completes the update. */
  datatype UpdateAction = PromptRestartAgain | CompleteUpdate

  /** The snackbar the install listener shows for a status, if any. */
  function StatusMessage(status: int): Option<SnackbarMessage<UpdateAction>>
  {
    if status == Downloading then Some(ResourceSnackbar(UpdateDownloading))
    else if status == Downloaded then Some(ActionSnackbar(UpdateDownloaded, UpdateRestart, PromptRestartAgain))
    else if status == Canceled then Some(ResourceSnackbar(UpdateCanceled))
    else if status == Failed then Some(ResourceSnackbar(UpdateFailed))
    else None
  }

  /** Pressing a restart button: a new snackbar, or completing the update. */
  function RunAction(action: UpdateAction): (Option<SnackbarMessage<UpdateAction>>, bool)
  {
    match action
    case PromptRestartAgain => (Some(ActionSnackbar(UpdateDownloaded, UpdateRestart, CompleteUpdate)), false)
    case CompleteUpdate => (None, true)
  }

  /** The four reported statuses show their own text and only "downloaded"
      offers a button; every other status shows nothing. */
  lemma StatusMessageSpec(status: int, getString: StringRes -> string)
    ensures StatusMessage(status).Some? <==> status in {Downloading, Downloaded, Canceled, Failed}
    ensures status == Downloading ==> ToMessage(StatusMessage(status).value, getString) == getString(UpdateDownloading)
    ensures status == Canceled ==> ToMessage(StatusMessage(status).value, getString) == getString(UpdateCanceled)
    ensures status == Failed ==> ToMessage(StatusMessage(status).value, getString) == getString(UpdateFailed)
    ensures status == Downloaded ==>
      && ToMessage(StatusMessage(status).value, getString) == getString(UpdateDownloaded)
      && ToActionText(StatusMessage(status).value, getString) == Some(getString(UpdateRestart))
    ensures StatusMessage(status).Some? && status != Downloaded ==> ToAction(StatusMessage(status).value) == None
  {
  }

  /** The update completes on the second press of "restart", never the first:
      the first press shows an identical snackbar whose button completes it. */
  lemma RestartNeedsTwoPresses(getString: StringRes -> string)
    ensures var first := StatusMessage(Downloaded).value;
      var (second, completedFirst) := RunAction(ToAction(first).value);
      && !completedFirst
      && second.Some?
      && ToMessage(second.value, getString) == ToMessage(first, getString)
      && ToActionText(second.value, getString) == ToActionText(first, getString)
      && RunAction(ToAction(second.value).value) == (None, true)
  {
  }
}
