/** The server route an admin calls to create a login: it reads a bearer
    token, checks that the caller is a signed-in admin, validates the
    requested email, password and role, creates the account and records
    its role. Every awaited call (the environment, the token check, the
    role query, the request body, account creation and the role upsert)
    is an input here, given as the answer that call would produce. */
module AdminUsersRoute {
  import opened Wrappers
  import opened Text
  import opened Failures
  import opened Domain
  import opened Seqs

  /** The roles a new account may be given. */
  const ALLOWED_ROLES: seq<string> := ["admin", "students_only"]

  /** The texts the route answers with: fixed ones, and messages passed
      on from the server or from a thrown error. */
  datatype Message =
    | Unauthorized
    | SetupIncomplete
    | AdminsOnly
    | InvalidEmail
    | ShortPassword
    | InvalidRole
    | CreateFailed
    | Unexpected
    | Passed(text: string)

  function MessageText(m: Message): string {
    match m
    case Unauthorized => "Unauthorized."
    case SetupIncomplete => "Supabase server setup is incomplete. Add NEXT_PUBLIC_SUPABASE_URL, NEXT_PUBLIC_SUPABASE_ANON_KEY, and SUPABASE_SERVICE_ROLE_KEY."
    case AdminsOnly => "Only admins can add users."
    case InvalidEmail => "Enter a valid email."
    case ShortPassword => "Password must be at least 6 characters."
    case InvalidRole => "Invalid role selected."
    case CreateFailed => "Unable to create user."
    case Unexpected => "Unexpected server error while creating user."
    case Passed(text) => text
  }

  /** The allowed roles are exactly the names of the panel's two roles. */
  lemma AllowedRolesAreAppRoles(name: string)
    ensures name in ALLOWED_ROLES <==> exists role :: RoleName(role) == name
  {
    if name == "admin" {
      assert RoleName(Admin) == name;
    } else if name == "students_only" {
      assert RoleName(StudentsOnly) == name;
    }
  }

  // ---------------------------------------------------------------------
  // Bearer token

  /** The token of an `Authorization: Bearer <token>` header: the header is
      trimmed, its first seven characters must read "bearer " in any letter
      case, and the trimmed rest is the token unless it is empty. */
  function ExtractBearerToken(header: Option<string>): (token: Option<string>)
    ensures token.Some? ==> token.value != [] && IsTrimmed(token.value)
    ensures header.None? ==> token.None?
  {
    TokenAfterScheme(Trim(header.UnwrapOr("")))
  }

  /** The token of a trimmed header. */
  function TokenAfterScheme(authorization: string): (token: Option<string>)
    ensures token.Some? ==> token.value != [] && IsTrimmed(token.value)
  {
    if !StartsWith(ToLower(authorization), "bearer ") then None
    else
      var rest := Trim(authorization[7..]);
      if rest == [] then None else Some(rest)
  }

  /** A scheme reading "bearer " in some letter case has seven characters
      and does not start with whitespace. */
  lemma SchemeShape(scheme: string)
    requires ToLower(scheme) == "bearer "
    ensures |scheme| == 7 && !IsWhitespace(scheme[0])
  {
    assert LowerChar(scheme[0]) == 'b';
  }

  /** The scheme, a gap and a trimmed token form a trimmed string, and
      the lower-cased form starts with "bearer ". */
  lemma SchemeAndToken(scheme: string, gap: string, token: string)
    requires ToLower(scheme) == "bearer "
    requires token != [] && IsTrimmed(token)
    ensures IsTrimmed(scheme + gap + token)
    ensures StartsWith(ToLower(scheme + gap + token), "bearer ")
    ensures (scheme + gap + token)[7..] == gap + token
  {
    SchemeShape(scheme);
    var body := scheme + gap + token;
    assert body[0] == scheme[0];
    assert body[|body| - 1] == token[|token| - 1];
    assert ToLower(body)[..7] == ToLower(scheme);
  }

  /** A header that is, up to surrounding whitespace, the word "bearer" in
      any letter case, a space, any further whitespace and a token, yields
      that token. */
  lemma BearerTokenRead(before: string, scheme: string, gap: string, token: string, after: string)
    requires IsBlank(before) && IsBlank(gap) && IsBlank(after)
    requires ToLower(scheme) == "bearer "
    requires token != [] && IsTrimmed(token)
    ensures ExtractBearerToken(Some(before + (scheme + gap + token) + after)) == Some(token)
  {
    SchemeAndToken(scheme, gap, token);
    TrimOfPadded(before, scheme + gap + token, after);
    TrimOfPadded(gap, token, []);
    assert gap + token + [] == gap + token;
  }

  /** Conversely a token read is the end of the trimmed header, after
      its first seven characters (reading "bearer " in some letter case)
      and a run of whitespace. */
  lemma BearerTokenShape(header: string, token: string)
    requires ExtractBearerToken(Some(header)) == Some(token)
    ensures var authorization := Trim(header);
            var start := |authorization| - |token|;
            StartsWith(ToLower(authorization), "bearer ") && 7 <= start &&
            authorization[start..] == token && IsBlank(authorization[7..start])
  {
    SchemeThenToken(Trim(header), token);
  }

  lemma SchemeThenToken(authorization: string, token: string)
    requires IsTrimmed(authorization)
    requires TokenAfterScheme(authorization) == Some(token)
    ensures var start := |authorization| - |token|;
            StartsWith(ToLower(authorization), "bearer ") && 7 <= start &&
            authorization[start..] == token && IsBlank(authorization[7..start])
  {
    var rest := authorization[7..];
    assert token == Trim(rest);
    assert rest[|rest| - 1] == authorization[|authorization| - 1];
    TrimOfTrimmedEnd(rest);
    var j := SkipBlanks(rest, 0);
    assert authorization[7 + j..] == rest[j..];
    assert authorization[7..7 + j] == rest[..j];
  }

  // ---------------------------------------------------------------------
  // Email

  /** No whitespace and no '@': the character class `[^\s@]`. */
  predicate NoSpaceOrAt(s: string) {
    forall k :: 0 <= k < |s| ==> !IsWhitespace(s[k]) && s[k] != '@'
  }

  /** A '.' with at least one character on each side. */
  predicate HasInnerDot(domain: string) {
    exists i :: 0 < i < |domain| - 1 && domain[i] == '.'
  }

  /** The route's email test, split at the first '@': a non-empty local
      part and a domain without whitespace or '@' that has an inner dot. */
  predicate IsValidEmail(email: string) {
    '@' in email &&
    var at := FirstIndex(email, '@');
    var local := email[..at];
    var domain := email[at + 1..];
    local != [] && NoSpaceOrAt(local) && NoSpaceOrAt(domain) && HasInnerDot(domain)
  }

  /** `email` is `local@host.top` with three non-empty runs without
      whitespace or '@'. */
  predicate EmailPieces(email: string, local: string, host: string, top: string) {
    local != [] && host != [] && top != [] &&
    NoSpaceOrAt(local) && NoSpaceOrAt(host) && NoSpaceOrAt(top) &&
    email == local + "@" + host + "." + top
  }

  /** The pattern `^[^\s@]+@[^\s@]+\.[^\s@]+$` read literally. */
  ghost predicate MatchesEmailPattern(email: string) {
    exists local, host, top :: EmailPieces(email, local, host, top)
  }

  /** The test accepts exactly the strings the pattern matches. */
  lemma ValidEmailIsPattern(email: string)
    ensures IsValidEmail(email) <==> MatchesEmailPattern(email)
  {
    if IsValidEmail(email) {
      ValidEmailPieces(email);
    }
    if MatchesEmailPattern(email) {
      var local, host, top :| EmailPieces(email, local, host, top);
      PatternPieces(email, local, host, top);
    }
  }

  /** A valid email splits into the pattern's pieces. */
  lemma ValidEmailPieces(email: string)
    requires IsValidEmail(email)
    ensures MatchesEmailPattern(email)
  {
    var at := FirstIndex(email, '@');
    var local := email[..at];
    var domain := email[at + 1..];
    var i :| 0 < i < |domain| - 1 && domain[i] == '.';
    SplitAround(email, at);
    SplitAround(domain, i);
    var host := domain[..i];
    var top := domain[i + 1..];
    assert NoSpaceOrAt(host) && NoSpaceOrAt(top);
    AppendAssoc(local + "@", host + ".", top);
    AppendAssoc(local + "@", host, ".");
    assert EmailPieces(email, local, host, top);
  }

  /** A string is what comes before an index, the character there and
      what comes after. */
  lemma SplitAround(s: string, i: nat)
    requires i < |s|
    ensures s == s[..i] + [s[i]] + s[i + 1..]
  {
  }

  lemma PatternPieces(email: string, local: string, host: string, top: string)
    requires EmailPieces(email, local, host, top)
    ensures IsValidEmail(email)
  {
    var domain := host + "." + top;
    DottedDomain(host, top);
    assert email == local + "@" + domain;
    ValidEmailOfParts(local, domain);
  }

  /** Two runs without whitespace or '@' joined by a dot form a domain. */
  lemma DottedDomain(host: string, top: string)
    requires host != [] && top != [] && NoSpaceOrAt(host) && NoSpaceOrAt(top)
    ensures NoSpaceOrAt(host + "." + top) && HasInnerDot(host + "." + top)
  {
    assert (host + "." + top)[|host|] == '.';
  }

  /** A local part and a domain joined by '@' form a valid email address. */
  lemma ValidEmailOfParts(local: string, domain: string)
    requires local != [] && NoSpaceOrAt(local) && NoSpaceOrAt(domain) && HasInnerDot(domain)
    ensures IsValidEmail(local + "@" + domain)
  {
    var email := local + "@" + domain;
    FirstAtAfterLocal(local, domain);
    assert email[..|local|] == local;
    assert email[|local| + 1..] == domain;
  }

  /** '@' found first right after a local part without one. */
  lemma FirstAtAfterLocal(local: string, domain: string)
    requires NoSpaceOrAt(local)
    ensures FirstIndex(local + "@" + domain, '@') == |local|
  {
    var email := local + "@" + domain;
    assert email[|local|] == '@';
  }

  /** The route lower-cases and trims the email before testing it. */
  function NormalizeEmail(email: Option<string>): string {
    ToLower(Trim(email.UnwrapOr("")))
  }

  /** Normalising a normalised email changes nothing. */
  lemma NormalizeEmailIdempotent(email: Option<string>)
    ensures NormalizeEmail(Some(NormalizeEmail(email))) == NormalizeEmail(email)
  {
    var t := Trim(email.UnwrapOr(""));
    ToLowerKeepsWhitespace(t);
    assert IsTrimmed(ToLower(t));
    TrimmedIsFixed(ToLower(t));
    ToLowerIdempotent(t);
  }

  // ---------------------------------------------------------------------
  // The request

  /** The JSON body: every field may be missing. */
  datatype CreateUserBody = CreateUserBody(email: Option<string>, password: Option<string>, role: Option<string>)

  /** A validated request: normalised email, password and role. */
  datatype NewUser = NewUser(email: string, password: string, role: string)

  /** The body checks, in the route's order: email, then password length,
      then role. */
  function ValidateBody(body: CreateUserBody): (r: Result<NewUser, Message>)
    ensures r.Success? <==>
              IsValidEmail(NormalizeEmail(body.email)) &&
              Utf16Length(body.password.UnwrapOr("")) >= 6 &&
              body.role.Some? && body.role.value in ALLOWED_ROLES
    ensures r.Success? ==>
              r.value == NewUser(NormalizeEmail(body.email), body.password.value, body.role.value)
    ensures !IsValidEmail(NormalizeEmail(body.email)) ==> r == Failure(InvalidEmail)
    ensures IsValidEmail(NormalizeEmail(body.email)) && Utf16Length(body.password.UnwrapOr("")) < 6 ==>
              r == Failure(ShortPassword)
  {
    var email := NormalizeEmail(body.email);
    var password := body.password.UnwrapOr("");
    if email == [] || !IsValidEmail(email) then Failure(InvalidEmail)
    else if Utf16Length(password) < 6 then Failure(ShortPassword)
    else if body.role.None? || body.role.value == [] || body.role.value !in ALLOWED_ROLES then Failure(InvalidRole)
    else Success(NewUser(email, password, body.role.value))
  }

  /** The length check counts UTF-16 code units, as `.length` does: a
      password of three astral characters (three emoji, say) is six units
      long and passes. */
  lemma AstralPasswordAccepted(body: CreateUserBody)
    requires IsValidEmail(NormalizeEmail(body.email))
    requires body.password.Some? && |body.password.value| == 3
    requires forall k :: 0 <= k < 3 ==> IsAstral(body.password.value[k])
    requires body.role.Some? && body.role.value in ALLOWED_ROLES
    ensures ValidateBody(body).Success?
  {
    Utf16LengthOfAstral(body.password.value);
  }

  /** What `auth.getUser(token)` answers: the user id, if any, and an error. */
  datatype RequesterAnswer = RequesterAnswer(user: Option<string>, error: Option<string>)

  /** What the role query answers: the stored role (`None` when there is no
      row or its role is null) and an error message. */
  datatype RoleAnswer = RoleAnswer(role: Option<string>, error: Option<string>)

  datatype CreatedUser = CreatedUser(id: string, email: Option<string>, createdAt: Option<string>)

  /** What `auth.admin.createUser` answers. */
  datatype CreateAnswer = CreateAnswer(user: Option<CreatedUser>, error: Option<string>)

  /** The answers of the route's collaborators, in the order it awaits
      them; `configured` says whether the three environment variables are
      set and `now` is the current time as an ISO string. */
  datatype Services = Services(
    configured: bool,
    requester: Result<RequesterAnswer, Thrown>,
    requesterRole: Result<RoleAnswer, Thrown>,
    body: Result<CreateUserBody, Thrown>,
    created: Result<CreateAnswer, Thrown>,
    upsert: Result<Option<string>, Thrown>,
    now: string)

  datatype Response =
    | Reply(status: nat, message: Message)
    | Created(userId: string, email: string, role: string, createdAt: string)

  /** The route's `catch`: an `Error`'s message, or a fixed text. */
  function CaughtMessage(e: Thrown): Message {
    match e
    case ErrorObject(m) => Passed(m)
    case _ => Unexpected
  }

  /** The caller holds a token, the server is configured, and the token
      belongs to a user whose stored role is "admin". */
  predicate AdminCaller(header: Option<string>, s: Services) {
    ExtractBearerToken(header).Some? && s.configured &&
    s.requester.Success? && s.requester.value.error.None? && s.requester.value.user.Some? &&
    s.requesterRole.Success? && s.requesterRole.value.error.None? &&
    s.requesterRole.value.role == Some("admin")
  }

  /** The route up to the body: the token, the environment, the token's
      user and that user's stored role. `None` lets the request through;
      otherwise the refusal is returned. */
  function Authorize(header: Option<string>, s: Services): (refusal: Option<Response>)
    ensures refusal.None? <==> AdminCaller(header, s)
    ensures ExtractBearerToken(header).None? ==> refusal == Some(Reply(401, Unauthorized))
    ensures refusal.Some? ==> refusal.value.Reply? && refusal.value.status in {400, 401, 403, 500}
  {
    match ExtractBearerToken(header)
    case None => Some(Reply(401, Unauthorized))
    case Some(_) =>
      if !s.configured then Some(Reply(500, SetupIncomplete))
      else match s.requester
      case Failure(e) => Some(Reply(500, CaughtMessage(e)))
      case Success(who) =>
        if who.error.Some? || who.user.None? then Some(Reply(401, Unauthorized))
        else match s.requesterRole
        case Failure(e) => Some(Reply(500, CaughtMessage(e)))
        case Success(found) =>
          if found.error.Some? then Some(Reply(400, Passed(found.error.value)))
          else if found.role != Some("admin") then Some(Reply(403, AdminsOnly))
          else None
  }

  /** `POST /api/admin/users`. */
  function Post(header: Option<string>, s: Services): (r: Response)
    ensures ExtractBearerToken(header).None? ==> r == Reply(401, Unauthorized)
    ensures r.Created? ==>
              AdminCaller(header, s) && s.body.Success? &&
              ValidateBody(s.body.value).Success? &&
              r.role == s.body.value.role.value && r.role in ALLOWED_ROLES
    ensures r.Reply? ==> r.status in {400, 401, 403, 500}
  {
    match Authorize(header, s)
    case Some(refusal) => refusal
    case None =>
      match s.body
      case Failure(e) => Reply(500, CaughtMessage(e))
      case Success(body) => CreateFor(body, s)
  }

  /** The part of the route after the caller is known to be an admin. */
  function CreateFor(body: CreateUserBody, s: Services): (r: Response)
    ensures r.Created? ==> ValidateBody(body).Success? && r.role == body.role.value && r.role in ALLOWED_ROLES
    ensures r.Reply? ==> r.status in {400, 500}
  {
    match ValidateBody(body)
    case Failure(m) => Reply(400, m)
    case Success(user) =>
      match s.created
      case Failure(e) => Reply(500, CaughtMessage(e))
      case Success(answer) =>
        if answer.error.Some? then Reply(400, Passed(answer.error.value))
        else if answer.user.None? then Reply(400, CreateFailed)
        else match s.upsert
        case Failure(e) => Reply(500, CaughtMessage(e))
        case Success(Some(m)) => Reply(400, Passed(m))
        case Success(None) =>
          var created := answer.user.value;
          Created(created.id, created.email.UnwrapOr(user.email), user.role, created.createdAt.UnwrapOr(s.now))
  }

  /** A caller whose stored role is not "admin" is refused before the body
      is read, whatever it holds and whatever the later calls would
      answer. */
  lemma NonAdminRefusedBeforeBody(header: Option<string>, s: Services, body: Result<CreateUserBody, Thrown>,
                                  created: Result<CreateAnswer, Thrown>)
    requires ExtractBearerToken(header).Some? && s.configured
    requires s.requester.Success? && s.requester.value.error.None? && s.requester.value.user.Some?
    requires s.requesterRole.Success? && s.requesterRole.value.error.None?
    requires s.requesterRole.value.role != Some("admin")
    ensures Post(header, s) == Post(header, s.(body := body, created := created)) == Reply(403, AdminsOnly)
  {
  }

  /** An admin's request with an invalid body is answered 400 with the
      first failing check's message, and no account is created. */
  lemma InvalidBodyRefused(header: Option<string>, s: Services, created: Result<CreateAnswer, Thrown>)
    requires AdminCaller(header, s) && s.body.Success?
    requires ValidateBody(s.body.value).Failure?
    ensures Post(header, s) == Post(header, s.(created := created))
    ensures Post(header, s) == Reply(400, ValidateBody(s.body.value).error)
  {
  }

  /** When every call succeeds, an admin's valid request creates the
      account and echoes the normalised email (unless the server reports
      one) and the requested role. */
  lemma ValidRequestCreates(header: Option<string>, s: Services)
    requires AdminCaller(header, s) && s.body.Success?
    requires ValidateBody(s.body.value).Success?
    requires s.created.Success? && s.created.value.error.None? && s.created.value.user.Some?
    requires s.upsert == Success(None)
    ensures Post(header, s).Created?
    ensures Post(header, s).role == s.body.value.role.value
    ensures Post(header, s).email == s.created.value.user.value.email.UnwrapOr(NormalizeEmail(s.body.value.email))
  {
  }
}
