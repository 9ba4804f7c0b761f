/**
 * The microphone-permission flags of the pre-call "hair check" screen.
 *
 * `permissionState` is what the browser's Permissions API reports for the
 * microphone, or `None` where that API is missing or fails (iOS Safari);
 * `micState` is the device state the video SDK reports. The SDK itself is
 * represented only by whether a call object exists.
 */
module Haircheck {
  import opened Wrappers

  /**
   * The permission state the mount effect settles on: the queried state when
   * the Permissions API exists and answers, otherwise `None`.
   */
  function QueriedPermission(apiAvailable: bool, answer: Result<string>): (r: Option<string>)
    ensures r.Some? <==> apiAvailable && answer.Ok?
    ensures r.Some? ==> r.value == answer.value
  {
    if apiAvailable && answer.Ok? then Some(answer.value) else None
  }

  predicate IsPermissionsPrompt(permissionState: Option<string>) {
    permissionState == Some("prompt")
  }

  /**
   * Without a permission state, loading while the microphone is idle or
   * starting; with one, `(state === null || state === 'granted') && mic idle`.
   */
  predicate IsPermissionsLoading(permissionState: Option<string>, micState: string) {
    if permissionState.None? then micState == "idle" || micState == "loading"
    else (permissionState.None? || permissionState == Some("granted")) && micState == "idle"
  }

  predicate IsPermissionsGranted(permissionState: Option<string>, micState: string) {
    if permissionState.None? then micState == "granted"
    else permissionState == Some("granted")
  }

  predicate IsPermissionsDenied(permissionState: Option<string>) {
    permissionState == Some("denied")
  }

  /**
   * With a permission state, the microphone state matters only for loading,
   * and loading means granted but not yet started: the `null` test inside the
   * second branch never holds there.
   */
  lemma ReportedStateDecides(state: string, micState: string)
    ensures IsPermissionsGranted(Some(state), micState) <==> state == "granted"
    ensures IsPermissionsLoading(Some(state), micState) <==> state == "granted" && micState == "idle"
    ensures IsPermissionsLoading(Some(state), micState) ==> IsPermissionsGranted(Some(state), micState)
  {
  }

  /** Without a permission state, the microphone state alone decides, and loading excludes granted. */
  lemma MicStateDecides(micState: string)
    ensures IsPermissionsGranted(None, micState) <==> micState == "granted"
    ensures IsPermissionsLoading(None, micState) <==> micState in {"idle", "loading"}
    ensures !(IsPermissionsGranted(None, micState) && IsPermissionsLoading(None, micState))
    ensures !IsPermissionsPrompt(None) && !IsPermissionsDenied(None)
  {
  }

  /** The screen never shows granted together with denied, nor prompt together with denied. */
  lemma FlagsExclusive(permissionState: Option<string>, micState: string)
    ensures !(IsPermissionsGranted(permissionState, micState) && IsPermissionsDenied(permissionState))
    ensures !(IsPermissionsPrompt(permissionState) && IsPermissionsDenied(permissionState))
    ensures !(IsPermissionsPrompt(permissionState) && IsPermissionsGranted(permissionState, micState))
  {
  }

  /** The options `requestPermissions` starts the camera with. */
  datatype CameraRequest = CameraRequest(
    startVideoOff: bool,
    startAudioOff: bool,
    audioSource: string,
    audioProcessor: string)

  /**
   * `requestPermissions`: nothing without a call object; otherwise the
   * camera and microphone are both started, from the default audio source,
   * with noise cancellation.
   */
  function RequestPermissions(hasCallObject: bool): (r: Option<CameraRequest>)
    ensures r.None? <==> !hasCallObject
    ensures r.Some? ==> !r.value.startVideoOff && !r.value.startAudioOff
    ensures r.Some? ==> r.value.audioSource == "default" && r.value.audioProcessor == "noise-cancellation"
  {
    if !hasCallObject then None
    else Some(CameraRequest(false, false, "default", "noise-cancellation"))
  }
}
