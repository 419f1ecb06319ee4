/**
 * Device authentication: the Cloud Functions middleware `deviceAuth` and the Express
 * server's `validateDevice`. Both are an ordered chain of guards over the two
 * credential headers and one looked-up `devices/{id}` document.
 */
module DeviceAuth {
  import opened Wrappers
  import opened Text

  /** A `devices` document. `enabled` is `Some(true)` only when the stored value is the
      boolean true; any other stored value, or none, is `Some(false)` or `None`. */
  datatype DeviceDoc = DeviceDoc(enabled: Option<bool>, token: Option<string>)

  /** The two credential headers; an absent header is `None`. */
  datatype Credentials = Credentials(deviceId: Option<string>, token: Option<string>)

  /** The result of the single store read: it either throws (with the error's message)
      or yields the `devices` collection. */
  datatype Lookup = LookupFailed(message: string) | Devices(registry: map<string, DeviceDoc>)

  /** The outcome of authentication: the request proceeds for `deviceId`, or it is
      answered with `code` and `error`. */
  datatype AuthOutcome = Authenticated(deviceId: string) | Rejected(code: nat, error: string)

  const MissingCredentials: string := "Missing x-device-id or x-device-token"
  const UnknownDevice: string := "Unknown device"
  const DeviceDisabled: string := "Device disabled"
  const InvalidToken: string := "Invalid device token"

  /** The reference condition for letting a request through. */
  predicate Admits(creds: Credentials, registry: map<string, DeviceDoc>) {
    Truthy(creds.deviceId) && Truthy(creds.token)
    && creds.deviceId.value in registry
    && registry[creds.deviceId.value].enabled == Some(true)
    && registry[creds.deviceId.value].token == creds.token
  }

  /** `deviceAuth` (Cloud Functions): its guards in order, and `next()` with
      `req.device = { deviceId }` on success; a throwing lookup answers 500. */
  function Authenticate(creds: Credentials, lookup: Lookup): (r: AuthOutcome)
    ensures r.Authenticated? <==> lookup.Devices? && Admits(creds, lookup.registry)
    ensures r.Authenticated? ==> r.deviceId == creds.deviceId.value
    ensures !Truthy(creds.deviceId) || !Truthy(creds.token) ==> r == Rejected(401, MissingCredentials)
    ensures Truthy(creds.deviceId) && Truthy(creds.token) && lookup.LookupFailed? ==> r == Rejected(500, "Auth error")
    ensures Truthy(creds.deviceId) && Truthy(creds.token) && lookup.Devices?
            && creds.deviceId.value in lookup.registry
            && lookup.registry[creds.deviceId.value].enabled != Some(true)
            ==> r == Rejected(403, DeviceDisabled)
    ensures Truthy(creds.deviceId) && Truthy(creds.token) && lookup.Devices?
            && creds.deviceId.value !in lookup.registry
            ==> r == Rejected(401, UnknownDevice)
    ensures Truthy(creds.deviceId) && Truthy(creds.token) && lookup.Devices?
            && creds.deviceId.value in lookup.registry
            && lookup.registry[creds.deviceId.value].enabled == Some(true)
            && lookup.registry[creds.deviceId.value].token != creds.token
            ==> r == Rejected(401, InvalidToken)
    ensures r.Rejected? ==> r.code in {401, 403, 500}
  {
    if !Truthy(creds.deviceId) || !Truthy(creds.token) then Rejected(401, MissingCredentials)
    else match lookup
      case LookupFailed(_) => Rejected(500, "Auth error")
      case Devices(registry) =>
        var id := creds.deviceId.value;
        if id !in registry then Rejected(401, UnknownDevice)
        else if registry[id].enabled != Some(true) then Rejected(403, DeviceDisabled)
        else if registry[id].token != creds.token then Rejected(401, InvalidToken)
        else Authenticated(id)
  }

  /** The error `validateDevice` throws; `status` is absent for an error the store threw. */
  datatype ThrownError = ThrownError(status: Option<nat>, message: string)

  /** `validateDevice` (Express server): the same guards, as a thrown error or `{ deviceId }`. */
  function ValidateDevice(creds: Credentials, lookup: Lookup): (r: Result<string, ThrownError>)
    ensures r.Success? <==> lookup.Devices? && Admits(creds, lookup.registry)
    ensures r.Success? ==> r.value == creds.deviceId.value
    ensures r.Failure? && r.error.status.None? <==> Truthy(creds.deviceId) && Truthy(creds.token) && lookup.LookupFailed?
    ensures lookup.LookupFailed? && r.Failure? && r.error.status.None? ==> r.error.message == lookup.message
    ensures !Truthy(creds.deviceId) || !Truthy(creds.token) ==> r == Failure(ThrownError(Some(401), MissingCredentials))
    ensures Truthy(creds.deviceId) && Truthy(creds.token) && lookup.Devices?
            && creds.deviceId.value !in lookup.registry
            ==> r == Failure(ThrownError(Some(401), UnknownDevice))
    ensures Truthy(creds.deviceId) && Truthy(creds.token) && lookup.Devices?
            && creds.deviceId.value in lookup.registry
            && lookup.registry[creds.deviceId.value].enabled != Some(true)
            ==> r == Failure(ThrownError(Some(403), DeviceDisabled))
    ensures Truthy(creds.deviceId) && Truthy(creds.token) && lookup.Devices?
            && creds.deviceId.value in lookup.registry
            && lookup.registry[creds.deviceId.value].enabled == Some(true)
            && lookup.registry[creds.deviceId.value].token != creds.token
            ==> r == Failure(ThrownError(Some(401), InvalidToken))
  {
    if !Truthy(creds.deviceId) || !Truthy(creds.token) then Failure(ThrownError(Some(401), MissingCredentials))
    else match lookup
      case LookupFailed(message) => Failure(ThrownError(None, message))
      case Devices(registry) =>
        var id := creds.deviceId.value;
        if id !in registry then Failure(ThrownError(Some(401), UnknownDevice))
        else if registry[id].enabled != Some(true) then Failure(ThrownError(Some(403), DeviceDisabled))
        else if registry[id].token != creds.token then Failure(ThrownError(Some(401), InvalidToken))
        else Success(id)
  }

  /** The server handlers' `catch`: `err.status || 500` and `err.message || 'Error'`. */
  function ServerAuthOutcome(creds: Credentials, lookup: Lookup): (r: AuthOutcome)
    ensures r.Authenticated? <==> lookup.Devices? && Admits(creds, lookup.registry)
    ensures r.Rejected? ==> r.code in {401, 403, 500}
    ensures Truthy(creds.deviceId) && Truthy(creds.token) && lookup.LookupFailed? ==>
      r == Rejected(500, if lookup.message != "" then lookup.message else "Error")
    ensures (!Truthy(creds.deviceId) || !Truthy(creds.token) || lookup.Devices?) && r.Rejected? ==>
      r.error in {MissingCredentials, UnknownDevice, DeviceDisabled, InvalidToken}
  {
    match ValidateDevice(creds, lookup)
    case Success(id) => Authenticated(id)
    case Failure(e) =>
      Rejected(if e.status.Some? && e.status.value != 0 then e.status.value else 500,
               if e.message != "" then e.message else "Error")
  }

  /** The two implementations decide alike: the same requests pass, with the same device
      id, and every rejection carries the same status code; only the text of the 500
      answer differs. */
  lemma AuthImplementationsAgree(creds: Credentials, lookup: Lookup)
    ensures Authenticate(creds, lookup).Authenticated? <==> ServerAuthOutcome(creds, lookup).Authenticated?
    ensures Authenticate(creds, lookup).Authenticated? ==>
      Authenticate(creds, lookup).deviceId == ServerAuthOutcome(creds, lookup).deviceId
    ensures Authenticate(creds, lookup).Rejected? ==>
      Authenticate(creds, lookup).code == ServerAuthOutcome(creds, lookup).code
    ensures Authenticate(creds, lookup).Rejected? && Authenticate(creds, lookup).code != 500 ==>
      Authenticate(creds, lookup) == ServerAuthOutcome(creds, lookup)
  {
  }

  /** The enabled check comes before the token check: a disabled device with a wrong
      token is refused with 403, not 401. */
  lemma DisabledBeatsWrongToken(id: string, token: string, stored: string, registry: map<string, DeviceDoc>)
    requires id != "" && token != "" && token != stored
    requires id in registry && registry[id] == DeviceDoc(Some(false), Some(stored))
    ensures Authenticate(Credentials(Some(id), Some(token)), Devices(registry)) == Rejected(403, DeviceDisabled)
  {
  }
}
