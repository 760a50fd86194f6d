/**
 * Client-side checks of frontend/src/screens/services/CalendarService.ts:
 * the token shape check, the error built from a failed response, and the
 * remapping of errors raised while synchronising the Google calendar.
 */
module CalendarService {
  import opened Wrappers
  import opened JsValues

  /** `APIError(message, status?, details?, requestInfo?)`. */
  datatype APIError = APIError(message: string, status: Option<int>, details: Option<string>, requestInfo: Option<string>)

  const NoToken := "No authentication token found"
  const BadTokenFormat := "Invalid token format"
  const InvalidResponseFormat := "Invalid response format"
  const ReLogin := "Authentication failed. Please log in again."
  const CheckPermissions := "Invalid request. Please check your calendar permissions."
  const SyncFailed := "Calendar synchronization failed"
  const FetchFailed := "Failed to fetch calendar events"

  /** validateToken: a JWT has exactly three dot-separated parts. */
  function ValidateToken(token: Option<string>): (r: Result<string, APIError>)
    ensures !Truthy(token) ==> r == Failure(APIError(NoToken, Some(401), None, None))
    ensures Truthy(token) && multiset(token.value)['.'] != 2 ==>
              r == Failure(APIError(BadTokenFormat, Some(401), None, None))
    ensures r.Success? <==> Truthy(token) && multiset(token.value)['.'] == 2
    ensures r.Success? ==> r.value == token.value
  {
    if !Truthy(token) then Failure(APIError(NoToken, Some(401), None, None))
    else if |Split(token.value, '.')| != 3 then Failure(APIError(BadTokenFormat, Some(401), None, None))
    else Success(token.value)
  }

  /**
   * What `JSON.parse` made of a failed response's text: text that does not
   * parse leaves `{}`; `null` parses to null; any other value is read for
   * `message` and `details` (absent on a number, string or array).
   */
  datatype ErrorBody = Unparsed | JsonNull | JsonValue(message: Option<string>, details: Option<string>)

  datatype HttpResponse = HttpResponse(ok: bool, status: nat, contentType: Option<string>, errorBody: ErrorBody)

  const StatusPrefix := "Request failed with status "

  /** What a `catch` block receives. */
  datatype Thrown = ApiError(error: APIError) | OtherError

  /** The fallback message `Request failed with status ${response.status}`. */
  function StatusMessage(status: nat): (m: string)
    ensures |m| > |StatusPrefix| && m[..|StatusPrefix|] == StatusPrefix
    ensures forall i :: |StatusPrefix| <= i < |m| ==> IsDigit(m[i])
    ensures ParseDigits(m[|StatusPrefix|..]) == status
    ensures |m| > |StatusPrefix| + 1 ==> m[|StatusPrefix|] != '0'
  {
    ParseNatToString(status);
    var digits := NatToString(status);
    var m := StatusPrefix + digits;
    assert m[|StatusPrefix|..] == digits;
    assert forall i :: |StatusPrefix| <= i < |m| ==> m[i] == digits[i - |StatusPrefix|];
    m
  }

  /**
   * What handleResponse throws for a response that is not ok: an APIError,
   * except that reading `.message` of a null body throws a TypeError.
   */
  function ResponseError(status: nat, body: ErrorBody, requestInfo: string): (t: Thrown)
    ensures body.JsonNull? <==> t.OtherError?
    ensures t.ApiError? ==> t.error.status == Some(status) && t.error.requestInfo == Some(requestInfo)
    ensures t.ApiError? ==> t.error.details == if body.JsonValue? then body.details else None
    ensures body.JsonValue? && Truthy(body.message) ==> t.ApiError? && t.error.message == body.message.value
    ensures body.Unparsed? || (body.JsonValue? && !Truthy(body.message)) ==>
              && t.ApiError?
              && |t.error.message| > |StatusPrefix| && t.error.message[..|StatusPrefix|] == StatusPrefix
              && (forall i :: |StatusPrefix| <= i < |t.error.message| ==> IsDigit(t.error.message[i]))
              && ParseDigits(t.error.message[|StatusPrefix|..]) == status
              && (|t.error.message| > |StatusPrefix| + 1 ==> t.error.message[|StatusPrefix|] != '0')
  {
    match body
    case JsonNull => OtherError
    case Unparsed => ApiError(APIError(StatusMessage(status), Some(status), None, Some(requestInfo)))
    case JsonValue(message, details) =>
      ApiError(APIError(if Truthy(message) then message.value else StatusMessage(status), Some(status), details, Some(requestInfo)))
  }

  /** handleResponse: a failed response, then a body that is not JSON; `Pass` means the JSON is returned. */
  function HandleResponse(response: HttpResponse, requestInfo: string): (r: Outcome<Thrown>)
    ensures !response.ok ==> r == Fail(ResponseError(response.status, response.errorBody, requestInfo))
    ensures response.ok ==>
              (r.Pass? <==> response.contentType.Some? && Contains(response.contentType.value, "application/json"))
    ensures response.ok && r.Fail? ==> r.error == ApiError(APIError(InvalidResponseFormat, Some(500), None, None))
  {
    if !response.ok then Fail(ResponseError(response.status, response.errorBody, requestInfo))
    else if !(response.contentType.Some? && Contains(response.contentType.value, "application/json")) then
      Fail(ApiError(APIError(InvalidResponseFormat, Some(500), None, None)))
    else Pass
  }

  /** The catch block of syncGoogleCalendar. */
  function RemapSyncError(t: Thrown): (e: APIError)
    ensures t.OtherError? ==> e == APIError(SyncFailed, None, None, None)
    ensures t.ApiError? ==> e.status == t.error.status && e.details == t.error.details && e.requestInfo == t.error.requestInfo
    ensures t.ApiError? && t.error.status == Some(401) ==> e.message == ReLogin
    ensures t.ApiError? && t.error.status == Some(400) ==> e.message == CheckPermissions
    ensures t.ApiError? && t.error.status != Some(401) && t.error.status != Some(400) ==> e == t.error
  {
    match t
    case OtherError => APIError(SyncFailed, None, None, None)
    case ApiError(err) =>
      if err.status == Some(401) then APIError(ReLogin, Some(401), err.details, err.requestInfo)
      else if err.status == Some(400) then APIError(CheckPermissions, Some(400), err.details, err.requestInfo)
      else err
  }

  /**
   * getGoogleCalendarEvents: `fetched` is what makeRequest produced, the
   * parsed JSON (`None` for null) or what it threw. An APIError passes
   * through; anything else thrown becomes a status-less APIError.
   */
  function GetGoogleCalendarEvents<E>(fetched: Result<Option<seq<E>>, Thrown>): (r: Result<Option<seq<E>>, APIError>)
    ensures fetched.Success? ==> r == Success(fetched.value)
    ensures fetched.Failure? && fetched.error.ApiError? ==> r == Failure(fetched.error.error)
    ensures fetched.Failure? && fetched.error.OtherError? ==> r == Failure(APIError(FetchFailed, None, None, None))
  {
    match fetched
    case Success(events) => Success(events)
    case Failure(ApiError(err)) => Failure(err)
    case Failure(OtherError) => Failure(APIError(FetchFailed, None, None, None))
  }

  /**
   * syncGoogleCalendar: read the stored token (the read itself may throw),
   * validate it, fetch the events and read their `length` (which throws on a
   * null result); every failure goes through `RemapSyncError`.
   */
  function SyncGoogleCalendar<E>(stored: Result<Option<string>, Thrown>, fetched: Result<Option<seq<E>>, Thrown>): (r: Result<seq<E>, APIError>)
    ensures r.Success? <==>
              && stored.Success? && ValidateToken(stored.value).Success?
              && fetched.Success? && fetched.value.Some?
    ensures r.Success? ==> r.value == fetched.value.value
    ensures r.Failure? && r.error.status == Some(401) ==> r.error.message == ReLogin
    ensures r.Failure? && r.error.status == Some(400) ==> r.error.message == CheckPermissions
    ensures stored.Failure? ==> r == Failure(RemapSyncError(stored.error))
    ensures stored.Failure? && stored.error.OtherError? ==> r == Failure(APIError(SyncFailed, None, None, None))
    ensures stored.Success? && ValidateToken(stored.value).Success? && fetched.Failure? ==>
              r == Failure(RemapSyncError(ApiError(GetGoogleCalendarEvents(fetched).error)))
  {
    match stored
    case Failure(t) => Failure(RemapSyncError(t))
    case Success(token) =>
      match ValidateToken(token)
      case Failure(err) => Failure(RemapSyncError(ApiError(err)))
      case Success(_) =>
        match GetGoogleCalendarEvents(fetched)
        case Failure(err) => Failure(RemapSyncError(ApiError(err)))
        case Success(None) => Failure(RemapSyncError(OtherError))
        case Success(Some(events)) => Success(events)
  }

  /** A missing or malformed token ends the sync with the 401 re-login error, whatever the fetch would give. */
  lemma BadTokenAsksToLogIn<E>(token: Option<string>, fetched: Result<Option<seq<E>>, Thrown>)
    requires ValidateToken(token).Failure?
    ensures SyncGoogleCalendar(Success(token), fetched) == Failure(APIError(ReLogin, Some(401), None, None))
  {
  }

  /**
   * With a well-formed token the sync returns the fetched events; a null
   * result ends it with the generic sync failure, anything else with an error
   * whose status the fetch decided.
   */
  lemma SyncWithGoodToken<E>(token: string, fetched: Result<Option<seq<E>>, Thrown>)
    requires multiset(token)['.'] == 2
    ensures fetched.Success? && fetched.value.Some? ==>
              SyncGoogleCalendar(Success(Some(token)), fetched) == Success(fetched.value.value)
    ensures fetched == Success(None) ==>
              SyncGoogleCalendar(Success(Some(token)), fetched) == Failure(APIError(SyncFailed, None, None, None))
    ensures fetched.Failure? && fetched.error.OtherError? ==>
              SyncGoogleCalendar(Success(Some(token)), fetched) == Failure(APIError(FetchFailed, None, None, None))
    ensures fetched.Failure? && fetched.error.ApiError? ==>
              SyncGoogleCalendar(Success(Some(token)), fetched).Failure? &&
              SyncGoogleCalendar(Success(Some(token)), fetched).error.status == fetched.error.error.status &&
              SyncGoogleCalendar(Success(Some(token)), fetched).error.details == fetched.error.error.details &&
              SyncGoogleCalendar(Success(Some(token)), fetched).error.requestInfo == fetched.error.error.requestInfo
    ensures fetched.Failure? && fetched.error.ApiError? &&
            fetched.error.error.status != Some(401) && fetched.error.error.status != Some(400) ==>
              SyncGoogleCalendar(Success(Some(token)), fetched) == Failure(fetched.error.error)
  {
    assert token != "" by { assert multiset(token)['.'] > 0; }
  }

  /**
   * A failed response whose body is JSON null: handleResponse throws a
   * TypeError, which getGoogleCalendarEvents turns into the status-less fetch
   * failure, and the sync passes that on unchanged.
   */
  lemma NullErrorBodyLosesStatus<E>(token: string, status: nat, requestInfo: string)
    requires multiset(token)['.'] == 2
    ensures ResponseError(status, JsonNull, requestInfo) == OtherError
    ensures SyncGoogleCalendar<E>(Success(Some(token)), Failure(ResponseError(status, JsonNull, requestInfo))) ==
            Failure(APIError(FetchFailed, None, None, None))
  {
    SyncWithGoodToken<E>(token, Failure(OtherError));
  }
}
