/** The OAuth callback route (src/app/auth/callback/route.ts): where to send
    the browser after sign-in, and the profile row created on first
    sign-in. The auth service's answers and the request's headers are
    parameters. */
module AuthCallback {
  import opened Common
  import opened TaskService

  const DefaultNext: string := "/dashboard"
  const CodeErrorPath: string := "/auth/auth-code-error"
  const AuthErrorPath: string := "/login?error=auth_error"
  const SessionExpiredPath: string := "/login?error=session_expired"
  const ErrorPath: string := "/error"

  predicate StartsWithSlash(s: string)
  {
    |s| > 0 && s[0] == '/'
  }

  /** The `next` parameter: a path on this site, `/dashboard` when it is
      missing or is not a relative path. */
  function SanitizeNext(next: Option<string>): (r: string)
    ensures StartsWithSlash(r)
    ensures next.Some? && StartsWithSlash(next.value) ==> r == next.value
    ensures !(next.Some? && StartsWithSlash(next.value)) ==> r == DefaultNext
  {
    var n := if next.Some? then next.value else DefaultNext;
    if StartsWithSlash(n) then n else DefaultNext
  }

  /** Sanitising a sanitised path changes nothing. */
  lemma SanitizeNextIdempotent(next: Option<string>)
    ensures SanitizeNext(Some(SanitizeNext(next))) == SanitizeNext(next)
  {
  }

  /** What the request tells about where it arrived. */
  datatype Request = Request(origin: string, isDevelopment: bool, forwardedHost: Option<string>)

  /** The redirect after a successful sign-in: `origin + next` in
      development, `https://` + the forwarded host + `next` behind a proxy
      that sets a non-empty `x-forwarded-host`, `origin + next` otherwise. */
  function SuccessTarget(req: Request, next: string): (url: string)
    ensures req.isDevelopment ==> url == req.origin + next
    ensures !req.isDevelopment && req.forwardedHost.Some? && req.forwardedHost.value != "" ==>
      url == "https://" + req.forwardedHost.value + next
    ensures !req.isDevelopment && (req.forwardedHost.None? || req.forwardedHost.value == "") ==>
      url == req.origin + next
    ensures url[|url| - |next|..] == next
  {
    if req.isDevelopment then req.origin + next
    else if req.forwardedHost.Some? && req.forwardedHost.value != "" then "https://" + req.forwardedHost.value + next
    else req.origin + next
  }

  /** `auth.getUser()` after the exchange. */
  datatype UserAnswer = UserError | User(email: string, username: Option<string>)

  /** The callback: no code means the code-error page; a failed exchange
      the login page with `auth_error`; an exception during the exchange
      the login page with `session_expired`; a failed user lookup or
      profile insert the error page; otherwise the sanitised `next`. */
  method Callback(store: Store, req: Request, code: Option<string>, next: Option<string>,
                  exchange: Outcome, user: UserAnswer, insertOk: bool) returns (url: string)
    requires store.Valid()
    modifies store
    ensures store.Valid()
    ensures store.tasks == old(store.tasks)
    ensures code.None? || code.value == "" ==> url == req.origin + CodeErrorPath && store.profiles == old(store.profiles)
    ensures code.Some? && code.value != "" ==>
      match exchange
      case Threw => url == req.origin + SessionExpiredPath && store.profiles == old(store.profiles)
      case Failed(_) => url == req.origin + AuthErrorPath && store.profiles == old(store.profiles)
      case Done =>
        match user
        case UserError => url == req.origin + ErrorPath && store.profiles == old(store.profiles)
        case User(email, username) =>
          if email in old(store.profiles) then
            url == SuccessTarget(req, SanitizeNext(next)) && store.profiles == old(store.profiles)
          else if insertOk then
            url == SuccessTarget(req, SanitizeNext(next))
            && store.profiles == old(store.profiles)[email := Profile(old(store.nextProfileId), email, username)]
          else
            url == req.origin + ErrorPath && store.profiles == old(store.profiles)
  {
    var target := SanitizeNext(next);
    if code.None? || code.value == "" {
      return req.origin + CodeErrorPath;
    }
    match exchange
    case Threw =>
      url := req.origin + SessionExpiredPath;
    case Failed(_) =>
      url := req.origin + AuthErrorPath;
    case Done =>
      match user
      case UserError =>
        url := req.origin + ErrorPath;
      case User(email, username) =>
        var ok := store.EnsureProfile(email, username, insertOk);
        if !ok {
          url := req.origin + ErrorPath;
        } else {
          url := SuccessTarget(req, target);
        }
  }
}
