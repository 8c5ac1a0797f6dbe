/** Shared vocabulary of the finance front end: optional values, JavaScript
    truthiness of strings, the shape of an axios error, the next-auth session
    status, and what a guarded component renders. */
module Common {

  /** A value that may be absent (`null` / `undefined` in the source). */
  datatype Option<+T> = None | Some(value: T)

  /** JavaScript truthiness of an optional string: absent and `""` are falsy. */
  predicate Truthy(s: Option<string>)
  {
    s.Some? && s.value != ""
  }

  /** `a || b || fallback` over optional strings, as the source writes its
      error-message fallbacks. */
  function FirstTruthy(a: Option<string>, b: Option<string>, fallback: string): (r: string)
    ensures Truthy(a) ==> r == a.value
    ensures !Truthy(a) && Truthy(b) ==> r == b.value
    ensures !Truthy(a) && !Truthy(b) ==> r == fallback
    ensures fallback != "" ==> r != ""
  {
    if Truthy(a) then a.value else if Truthy(b) then b.value else fallback
  }

  /** HTTP headers as a plain object: names are compared as written. */
  type Headers = map<string, string>

  /** An HTTP answer as the front end reads it. */
  datatype Response = Response(status: int, body: string)

  /** The part of an axios error the source inspects: `err.response.status`
      and `err.response.data.message`. */
  datatype ErrorResponse = ErrorResponse(status: int, message: Option<string>)

  /** An error thrown by a request: `err.response` (absent for network
      failures) and `err.message`. */
  datatype RequestError = RequestError(response: Option<ErrorResponse>, message: Option<string>)
  {
    /** `err.response?.status === code` */
    predicate HasStatus(code: int)
    {
      response.Some? && response.value.status == code
    }

    /** `err.response?.data?.message` */
    function ServerMessage(): Option<string>
    {
      if response.Some? then response.value.message else None
    }
  }

  /** `useSession().status` of next-auth. */
  datatype SessionStatus = Loading | Authenticated | Unauthenticated

  /** What a guard or layout renders: nothing (`null`), a waiting
      placeholder, or the protected content with the props it was given. */
  datatype Render<P> = Nothing | Placeholder | Content(props: P)

  /** The login entry point every redirect in the application targets. */
  const LoginPath: string := "/login"
}
