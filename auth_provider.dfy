/** The authentication provider: the signed-in session and user, the role
    read from the `app_user_roles` table and the teacher names attached to
    it. With sign-in switched off every visitor is an admin. The answers of
    the authentication server and of the role query are parameters: a call
    either throws (`Failure`) or answers with data and an optional error. */
module AuthProvider {
  import opened Wrappers
  import opened Text
  import opened Domain
  import opened Failures
  import opened TeacherNames

  const UNKNOWN_NETWORK_ERROR := "Unknown network error"

  /** The hint shown when the server cannot be reached. */
  function UnreachableHint(action: string): string {
    "Unable to " + action + ". Could not reach Supabase. Check URL/key, internet, and browser network permissions."
  }

  /** `formatAuthTransportError(action, error)`: a network failure becomes
      a fixed hint naming the action; any other message is shown as it is. */
  function FormatAuthTransportError(action: string, error: Thrown): (r: string)
    ensures IsNetworkFailure(MessageOf(error, UNKNOWN_NETWORK_ERROR)) ==>
              r == UnreachableHint(action)
    ensures !IsNetworkFailure(MessageOf(error, UNKNOWN_NETWORK_ERROR)) ==> r == MessageOf(error, UNKNOWN_NETWORK_ERROR)
  {
    var message := MessageOf(error, UNKNOWN_NETWORK_ERROR);
    if IsNetworkFailure(message) then UnreachableHint(action) else message
  }

  /** An error whose message carries one of the four browser phrases, in any
      letter case and anywhere in the text, reads as the hint, and every
      such error of the same action reads the same. */
  lemma AuthTransportErrorRewritesPhrases(action: string, before: string, phrase: string, after: string, other: Thrown)
    requires ToLower(phrase) in NETWORK_PHRASES
    requires IsNetworkFailure(MessageOf(other, UNKNOWN_NETWORK_ERROR))
    ensures FormatAuthTransportError(action, ErrorObject(before + phrase + after)) == FormatAuthTransportError(action, other)
    ensures FormatAuthTransportError(action, ErrorText(before + phrase + after)) == FormatAuthTransportError(action, other)
  {
    var message := before + phrase + after;
    NetworkPhraseAnywhere(before, phrase, after);
    assert MessageOf(ErrorObject(message), UNKNOWN_NETWORK_ERROR) == message;
    assert MessageOf(ErrorText(message), UNKNOWN_NETWORK_ERROR) == message;
  }

  /** A short message that is not a network failure is shown unchanged,
      whether thrown as an error or as a string. */
  lemma AuthTransportErrorKeepsShortMessages(action: string, message: string)
    requires |message| < 11
    ensures FormatAuthTransportError(action, ErrorObject(message)) == message
    ensures FormatAuthTransportError(action, ErrorText(message)) == message
  {
    ShortMessageIsNotNetworkFailure(message);
  }

  const MISSING_COLUMN_CACHE := "Could not find the 'assigned_teachers' column of 'app_user_roles'"
  const MISSING_COLUMN_SQL := "column app_user_roles.assigned_teachers does not exist"

  /** `isMissingAssignedTeachersColumnError(message)`: the database has no
      `assigned_teachers` column yet, in either of the server's wordings. */
  predicate IsMissingAssignedTeachersColumnError(message: string) {
    Contains(message, MISSING_COLUMN_CACHE) || Contains(message, MISSING_COLUMN_SQL)
  }

  /** Either wording is recognised wherever it stands in the message. */
  lemma MissingColumnWordingAnywhere(before: string, after: string)
    ensures IsMissingAssignedTeachersColumnError(before + MISSING_COLUMN_CACHE + after)
    ensures IsMissingAssignedTeachersColumnError(before + MISSING_COLUMN_SQL + after)
  {
    ContainsInfix(before, MISSING_COLUMN_CACHE, after);
    ContainsInfix(before, MISSING_COLUMN_SQL, after);
  }

  /** `normalizeStoredRole(role)`: the stored text of a role; the legacy
      "teacher" is a student-only account and anything else is no role. */
  function NormalizeStoredRole(stored: Option<string>): (r: Option<AppRole>)
    ensures r == Some(Admin) <==> stored == Some("admin")
    ensures r == Some(StudentsOnly) <==> stored == Some("students_only") || stored == Some("teacher")
    ensures r == None <==> stored != Some("admin") && stored != Some("students_only") && stored != Some("teacher")
  {
    if stored == Some("admin") then Some(Admin)
    else if stored == Some("students_only") || stored == Some("teacher") then Some(StudentsOnly)
    else None
  }

  /** A role stored under its own name reads back as itself. */
  lemma StoredRoleRoundTrip(role: AppRole)
    ensures NormalizeStoredRole(Some(RoleName(role))) == Some(role)
  {
    assert "students_only" != "admin";
  }

  /** `normalizeTeacherNames(values)`: no list is the empty list; otherwise
      each trimmed, non-blank name whose lower-cased form has not been seen
      is kept, in order. */
  method NormalizeTeacherNames(values: Option<seq<string>>) returns (normalized: seq<string>)
    ensures normalized == DistinctNames(values.UnwrapOr([]))
    ensures values.None? ==> normalized == []
  {
    var items := values.UnwrapOr([]);
    var seen: set<string> := {};
    normalized := [];
    for i := 0 to |items|
      invariant normalized == KeepFirst(items[..i], Trim, ToLower)
      invariant seen == Keys(normalized, ToLower)
    {
      KeepFirstSnoc(items[..i], items[i], Trim, ToLower);
      assert items[..i + 1] == items[..i] + [items[i]];
      var next := Trim(items[i]);
      if next != [] {
        var key := ToLower(next);
        if key !in seen {
          KeysSnoc(normalized, next, ToLower);
          seen := seen + {key};
          normalized := normalized + [next];
        }
      }
    }
    assert items[..|items|] == items;
  }

  /** A row of `app_user_roles` as read: the stored role and, when the
      column exists and was selected, the teacher names. */
  datatype RoleRow = RoleRow(role: Option<string>, assignedTeachers: Option<seq<string>>)

  /** The answer of a query: the row, if any, and the error, if any. */
  datatype RoleResponse = RoleResponse(data: Option<RoleRow>, error: Option<string>)

  /** What `loadRole` settles on: the row read (possibly none), or the
      message of the error it throws. The second query, without the
      teacher names, is made only when the first fails for want of that
      column. */
  function RoleLookup(first: Result<RoleResponse, Thrown>, fallback: Result<RoleResponse, Thrown>): Result<Option<RoleRow>, string> {
    match first
    case Failure(thrown) => Failure(FormatAuthTransportError("load user role", thrown))
    case Success(response) =>
      var answer := if response.error.Some? && IsMissingAssignedTeachersColumnError(response.error.value) then fallback
                    else first;
      match answer
      case Failure(thrown) => Failure(FormatAuthTransportError("load user role", thrown))
      case Success(final) =>
        if final.error.Some? then Failure("Failed to load user role: " + final.error.value)
        else Success(final.data)
  }

  /** The second query is consulted only after the missing-column error:
      otherwise any two fallbacks give the same outcome. After that error
      the outcome is the second query's, read as a first answer that is not
      itself a missing-column error. */
  lemma RoleLookupRetriesOnlyOnMissingColumn(first: Result<RoleResponse, Thrown>,
                                             fallback: Result<RoleResponse, Thrown>, other: Result<RoleResponse, Thrown>)
    ensures !(first.Success? && first.value.error.Some? && IsMissingAssignedTeachersColumnError(first.value.error.value)) ==>
              RoleLookup(first, fallback) == RoleLookup(first, other)
    ensures first.Success? && first.value.error.Some? && IsMissingAssignedTeachersColumnError(first.value.error.value) &&
            !(fallback.Success? && fallback.value.error.Some? && IsMissingAssignedTeachersColumnError(fallback.value.error.value)) ==>
              RoleLookup(first, fallback) == RoleLookup(fallback, other)
  {
  }

  /** The second wording, alone, is recognised. */
  lemma MissingColumnWordingsAlone()
    ensures IsMissingAssignedTeachersColumnError(MISSING_COLUMN_SQL)
  {
    MissingColumnWordingAnywhere("", "");
    assert "" + MISSING_COLUMN_SQL + "" == MISSING_COLUMN_SQL;
  }

  /** A query that answers without error gives its row; one that answers
      with an error other than the missing column is reported with that
      error's text. */
  lemma RoleLookupOutcomes(row: Option<RoleRow>, message: string, fallback: Result<RoleResponse, Thrown>)
    ensures RoleLookup(Success(RoleResponse(row, None)), fallback) == Success(row)
    ensures !IsMissingAssignedTeachersColumnError(message) ==>
              RoleLookup(Success(RoleResponse(row, Some(message))), fallback) == Failure("Failed to load user role: " + message)
  {
  }

  /** A database without the teacher-names column still yields the role:
      the first query's error is replaced by the second query's row. */
  lemma RoleLookupWithoutTeacherColumn(row: Option<RoleRow>, first: Option<RoleRow>)
    ensures RoleLookup(Success(RoleResponse(first, Some(MISSING_COLUMN_SQL))), Success(RoleResponse(row, None))) == Success(row)
  {
    MissingColumnWordingsAlone();
  }

  /** The signed-in user, by id. */
  datatype User = User(id: string)

  /** A session of the authentication server and its user. */
  datatype Session = Session(user: User)

  /** The answer to `getSession`: the session, if any, and an error, if any. */
  datatype SessionResponse = SessionResponse(session: Option<Session>, error: Option<string>)

  class AuthState {
    /** `isAuthEnabled`: the panel is built to use the database and its
        address and key are configured. */
    const authEnabled: bool
    var session: Option<Session>
    var user: Option<User>
    var role: Option<AppRole>
    var assignedTeachers: seq<string>
    var loading: bool
    var roleLoading: bool

    /** The first render: no session yet; an admin with sign-in off,
        otherwise no role and both loading flags up. */
    constructor(authEnabled: bool)
      ensures this.authEnabled == authEnabled
      ensures session == None && user == None && assignedTeachers == []
      ensures role == Some(Admin) <==> !authEnabled
      ensures role == None <==> authEnabled
      ensures loading == authEnabled && roleLoading == authEnabled
    {
      this.authEnabled := authEnabled;
      session := None;
      user := None;
      role := if authEnabled then None else Some(Admin);
      assignedTeachers := [];
      loading := authEnabled;
      roleLoading := authEnabled;
    }

    /** `loadRole(userId)`, given the answers of the first query and of the
        query without teacher names. With sign-in off the visitor is an
        admin; otherwise a row read sets the role and the names, and any
        error clears both and is thrown. The role flag always ends down. */
    method LoadRole(first: Result<RoleResponse, Thrown>, fallback: Result<RoleResponse, Thrown>) returns (r: Outcome<string>)
      modifies this
      ensures !authEnabled ==> role == Some(Admin) && assignedTeachers == [] && r == Pass
      ensures authEnabled && RoleLookup(first, fallback).Failure? ==>
                role == None && assignedTeachers == [] && r == Fail(RoleLookup(first, fallback).error)
      ensures authEnabled && RoleLookup(first, fallback).Success? ==>
                var row := RoleLookup(first, fallback).value;
                role == NormalizeStoredRole(if row.Some? then row.value.role else None) &&
                assignedTeachers == DistinctNames(if row.Some? then row.value.assignedTeachers.UnwrapOr([]) else []) &&
                r == Pass
      ensures !roleLoading
      ensures session == old(session) && user == old(user) && loading == old(loading)
    {
      if !authEnabled {
        role := Some(Admin);
        assignedTeachers := [];
        roleLoading := false;
        return Pass;
      }
      roleLoading := true;
      if first.Failure? {
        FailRole(FormatAuthTransportError("load user role", first.error));
        return Fail(FormatAuthTransportError("load user role", first.error));
      }
      var data := first.value.data;
      var error := first.value.error;
      if error.Some? && IsMissingAssignedTeachersColumnError(error.value) {
        if fallback.Failure? {
          FailRole(FormatAuthTransportError("load user role", fallback.error));
          return Fail(FormatAuthTransportError("load user role", fallback.error));
        }
        data := fallback.value.data;
        error := fallback.value.error;
      }
      if error.Some? {
        FailRole("Failed to load user role: " + error.value);
        return Fail("Failed to load user role: " + error.value);
      }
      ApplyRow(data);
      r := Pass;
    }

    /** The success path of `loadRole`: the role and the names of the row
        read, none for no row; flag down. */
    method ApplyRow(data: Option<RoleRow>)
      modifies this
      ensures role == NormalizeStoredRole(if data.Some? then data.value.role else None)
      ensures assignedTeachers == DistinctNames(if data.Some? then data.value.assignedTeachers.UnwrapOr([]) else [])
      ensures !roleLoading && session == old(session) && user == old(user) && loading == old(loading)
    {
      role := NormalizeStoredRole(if data.Some? then data.value.role else None);
      assignedTeachers := NormalizeTeacherNames(if data.Some? then data.value.assignedTeachers else None);
      roleLoading := false;
    }

    /** The error path of `loadRole`: no role, no names, flag down. */
    method FailRole(message: string)
      modifies this
      ensures role == None && assignedTeachers == [] && !roleLoading
      ensures session == old(session) && user == old(user) && loading == old(loading)
    {
      role := None;
      assignedTeachers := [];
      roleLoading := false;
    }

    /** What the provider does with a new session, at start-up and on every
        change of the authentication state: it keeps the session and its
        user, and loads that user's role or, with nobody signed in, clears
        it. A failed role load is only logged. */
    method ApplySession(next: Option<Session>, first: Result<RoleResponse, Thrown>, fallback: Result<RoleResponse, Thrown>)
      modifies this
      ensures session == next && user == (if next.Some? then Some(next.value.user) else None) && !loading && !roleLoading
      ensures next.None? ==> role == None && assignedTeachers == []
      ensures next.Some? && !authEnabled ==> role == Some(Admin) && assignedTeachers == []
      ensures next.Some? && authEnabled && RoleLookup(first, fallback).Failure? ==> role == None && assignedTeachers == []
      ensures next.Some? && authEnabled && RoleLookup(first, fallback).Success? ==>
                var row := RoleLookup(first, fallback).value;
                role == NormalizeStoredRole(if row.Some? then row.value.role else None) &&
                assignedTeachers == DistinctNames(if row.Some? then row.value.assignedTeachers.UnwrapOr([]) else [])
    {
      session := next;
      user := if next.Some? then Some(next.value.user) else None;
      loading := false;
      if next.None? {
        role := None;
        assignedTeachers := [];
        roleLoading := false;
        return;
      }
      var _ := LoadRole(first, fallback);
    }

    /** The start-up effect: with sign-in off, an admin and nothing
        loading; a session lookup that throws leaves nobody signed in and no
        role; otherwise the session found (an error is only logged) is
        applied. */
    method Bootstrap(response: Result<SessionResponse, Thrown>,
                     first: Result<RoleResponse, Thrown>, fallback: Result<RoleResponse, Thrown>)
      modifies this
      ensures !loading && !roleLoading
      ensures !authEnabled ==> role == Some(Admin) && assignedTeachers == [] && session == old(session) && user == old(user)
      ensures authEnabled && response.Failure? ==> session == None && user == None && role == None && assignedTeachers == []
      ensures authEnabled && response.Success? ==>
                session == response.value.session &&
                (response.value.session.None? ==> user == None && role == None && assignedTeachers == [])
      ensures authEnabled && response.Success? && response.value.session.Some? ==>
                user == Some(response.value.session.value.user) &&
                (RoleLookup(first, fallback).Failure? ==> role == None && assignedTeachers == [])
      ensures authEnabled && response.Success? && response.value.session.Some? && RoleLookup(first, fallback).Success? ==>
                var row := RoleLookup(first, fallback).value;
                role == NormalizeStoredRole(if row.Some? then row.value.role else None) &&
                assignedTeachers == DistinctNames(if row.Some? then row.value.assignedTeachers.UnwrapOr([]) else [])
    {
      if !authEnabled {
        loading := false;
        roleLoading := false;
        role := Some(Admin);
        assignedTeachers := [];
        return;
      }
      if response.Failure? {
        session := None;
        user := None;
        role := None;
        assignedTeachers := [];
        loading := false;
        roleLoading := false;
        return;
      }
      ApplySession(response.value.session, first, fallback);
    }

    /** `signOut()`: with sign-in off the visitor stays an admin with no
        session; otherwise the server is asked and its error, or the hint
        for an unreachable server, is thrown. The session itself is cleared
        by the change of authentication state that follows. */
    method SignOut(answer: Result<Option<string>, Thrown>) returns (r: Outcome<string>)
      modifies this
      ensures !authEnabled ==>
                session == None && user == None && role == Some(Admin) && assignedTeachers == [] &&
                !loading && !roleLoading && r == Pass
      ensures authEnabled ==>
                session == old(session) && user == old(user) && role == old(role) &&
                assignedTeachers == old(assignedTeachers) && loading == old(loading) && roleLoading == old(roleLoading)
      ensures authEnabled && answer.Failure? ==> r == Fail(FormatAuthTransportError("sign out", answer.error))
      ensures authEnabled && answer.Success? && answer.value.Some? ==> r == Fail(answer.value.value)
      ensures authEnabled && answer == Success(None) ==> r == Pass
    {
      if !authEnabled {
        session := None;
        user := None;
        role := Some(Admin);
        assignedTeachers := [];
        loading := false;
        roleLoading := false;
        return Pass;
      }
      if answer.Failure? {
        return Fail(FormatAuthTransportError("sign out", answer.error));
      }
      if answer.value.Some? {
        return Fail(answer.value.value);
      }
      r := Pass;
    }

    /** `refreshRole()`: with nobody signed in the role is cleared;
        otherwise the role is loaded again. */
    method RefreshRole(first: Result<RoleResponse, Thrown>, fallback: Result<RoleResponse, Thrown>) returns (r: Outcome<string>)
      modifies this
      ensures !roleLoading && session == old(session) && user == old(user) && loading == old(loading)
      ensures old(user).None? ==> role == None && assignedTeachers == [] && r == Pass
      ensures old(user).Some? && !authEnabled ==> role == Some(Admin) && assignedTeachers == [] && r == Pass
      ensures old(user).Some? && authEnabled && RoleLookup(first, fallback).Failure? ==>
                role == None && assignedTeachers == [] && r == Fail(RoleLookup(first, fallback).error)
      ensures old(user).Some? && authEnabled && RoleLookup(first, fallback).Success? ==>
                var row := RoleLookup(first, fallback).value;
                role == NormalizeStoredRole(if row.Some? then row.value.role else None) &&
                assignedTeachers == DistinctNames(if row.Some? then row.value.assignedTeachers.UnwrapOr([]) else []) &&
                r == Pass
    {
      if user.None? {
        role := None;
        assignedTeachers := [];
        roleLoading := false;
        return Pass;
      }
      r := LoadRole(first, fallback);
    }

    /** `signIn(email, password)`: nothing is sent with sign-in off;
        otherwise the trimmed email and the password are sent, and the
        server's error, or the hint for an unreachable server, is thrown. */
    method SignIn(email: string, password: string, answer: Result<Option<string>, Thrown>)
      returns (request: Option<(string, string)>, r: Outcome<string>)
      ensures !authEnabled ==> request == None && r == Pass
      ensures authEnabled ==> request == Some((Trim(email), password))
      ensures authEnabled && answer.Failure? ==> r == Fail(FormatAuthTransportError("sign in", answer.error))
      ensures authEnabled && answer.Success? ==> r == (if answer.value.Some? then Fail(answer.value.value) else Pass)
    {
      if !authEnabled {
        return None, Pass;
      }
      request := Some((Trim(email), password));
      if answer.Failure? {
        return request, Fail(FormatAuthTransportError("sign in", answer.error));
      }
      r := if answer.value.Some? then Fail(answer.value.value) else Pass;
    }
  }
}
