/** The access-management card of the settings page: the list of accounts
    with, per account, the role and teacher names picked in the table, a
    form to create an account and a dialog to delete one. The card checks
    what it can before calling the data service (the acting user cannot
    demote or delete themself, "students_only" needs a teacher, the form
    needs an email and a password six UTF-16 code units long) and then updates its
    lists from what the service returned. The service's outcomes are
    parameters. */
module AccessManagement {
  import opened Wrappers
  import opened Text
  import opened Seqs
  import opened Domain
  import opened Failures
  import opened TeacherNames
  import MockDataService

  const SELF_DEMOTION := "You cannot remove your own admin access."
  const TEACHER_REQUIRED := "Assign at least one teacher for Student Only access."
  const EMAIL_REQUIRED := "Email is required."
  const PASSWORD_TOO_SHORT := "Password must be at least 6 characters."
  const SELF_DELETION := "You cannot delete your own account or access."

  // ---- Teacher names ----

  /** The names in a comma-separated field: trimmed, blanks dropped, each
      name once regardless of letter case, at its first spelling. */
  function ParsedTeacherNames(value: string): seq<string> {
    KeepFirst(Split(value, ','), Trim, ToLower)
  }

  /** Parsed names are trimmed, not blank, free of commas and distinct
      regardless of letter case. */
  lemma ParsedTeacherNamesClean(value: string)
    ensures var r := ParsedTeacherNames(value);
            (forall n :: n in r ==> n != [] && IsTrimmed(n) && ',' !in n) &&
            (forall i, j :: 0 <= i < j < |r| ==> ToLower(r[i]) != ToLower(r[j]))
  {
    var parts := Split(value, ',');
    KeepFirstSound(parts, Trim, ToLower);
    forall n | n in ParsedTeacherNames(value) ensures IsTrimmed(n) && ',' !in n {
      var k :| 0 <= k < |parts| && Trim(parts[k]) == n;
      assert parts[k] in parts;
      TrimOccurs(parts[k]);
      var i :| OccursAt(parts[k], n, i);
      assert forall c :: c in n ==> c in parts[k];
    }
  }

  /** `parseTeacherNames(value)`: splits at commas, then keeps each
      trimmed, non-blank name whose lower-cased form it has not seen. */
  method ParseTeacherNames(value: string) returns (parsed: seq<string>)
    ensures parsed == ParsedTeacherNames(value)
  {
    var parts := Split(value, ',');
    var seen: set<string> := {};
    parsed := [];
    for i := 0 to |parts|
      invariant parsed == KeepFirst(parts[..i], Trim, ToLower)
      invariant seen == Keys(parsed, ToLower)
    {
      KeepFirstSnoc(parts[..i], parts[i], Trim, ToLower);
      assert parts[..i + 1] == parts[..i] + [parts[i]];
      var item := Trim(parts[i]);
      if item != [] {
        var key := ToLower(item);
        if key !in seen {
          KeysSnoc(parsed, item, ToLower);
          seen := seen + {key};
          parsed := parsed + [item];
        }
      }
    }
    assert parts[..|parts|] == parts;
  }

  /** A name that is not blank and whose spelling, up to case, has not
      come earlier in the field is kept as typed, trimmed. */
  lemma ParseKeepsFirstSpelling(value: string, k: nat)
    requires k < |Split(value, ',')| && Trim(Split(value, ',')[k]) != []
    requires forall j :: 0 <= j < k ==>
               ToLower(Trim(Split(value, ',')[j])) != ToLower(Trim(Split(value, ',')[k]))
    ensures Trim(Split(value, ',')[k]) in ParsedTeacherNames(value)
  {
    KeepFirstKeepsFirst(Split(value, ','), k, Trim, ToLower);
  }

  /** No name of the field is lost: every non-blank entry is among the
      parsed names up to letter case. */
  lemma ParseLosesNoName(value: string, k: nat)
    requires k < |Split(value, ',')| && Trim(Split(value, ',')[k]) != []
    ensures ToLower(Trim(Split(value, ',')[k])) in Keys(ParsedTeacherNames(value), ToLower)
  {
    KeepFirstComplete(Split(value, ','), k, Trim, ToLower);
  }

  /** `formatTeacherNames(values)`: the names joined with ", ". */
  function FormatTeacherNames(values: Option<seq<string>>): string {
    Join(values.UnwrapOr([]), ", ")
  }

  /** The names as the comma-only separated parts of their ", " join: a
      space in front of every name but the first. */
  function Spaced(names: seq<string>): (r: seq<string>)
    requires |names| >= 1
    ensures |r| == |names| && r[0] == names[0]
    ensures forall i :: 1 <= i < |names| ==> r[i] == " " + names[i]
  {
    [names[0]] + seq(|names| - 1, i requires 0 <= i < |names| - 1 => " " + names[i + 1])
  }

  lemma JoinHead(c: string, x: string, rest: seq<string>, sep: string)
    ensures Join([c + x] + rest, sep) == c + Join([x] + rest, sep)
  {
    if rest != [] {
      JoinCons(c + x, rest, sep);
      JoinCons(x, rest, sep);
    }
  }

  lemma {:induction false} JoinSpaced(names: seq<string>)
    requires |names| >= 1
    ensures Join(names, ", ") == Join(Spaced(names), ",")
    decreases |names|
  {
    if |names| > 1 {
      var tail := Spaced(names[1..]);
      JoinSpaced(names[1..]);
      assert Spaced(names) == [names[0]] + ([" " + names[1]] + tail[1..]);
      assert tail == [names[1]] + tail[1..];
      JoinCons(names[0], [" " + names[1]] + tail[1..], ",");
      JoinHead(" ", names[1], tail[1..], ",");
      assert Join(names, ", ") == names[0] + ", " + Join(names[1..], ", ");
    }
  }

  /** No part of the comma-only split of the ", " join holds a comma. */
  lemma SpacedHasNoComma(names: seq<string>)
    requires |names| >= 1
    requires forall n :: n in names ==> ',' !in n
    ensures forall p :: p in Spaced(names) ==> ',' !in p
  {
    var spaced := Spaced(names);
    forall p | p in spaced ensures ',' !in p {
      var i :| 0 <= i < |spaced| && spaced[i] == p;
      assert names[i] in names;
      if i > 0 {
        assert p == " " + names[i];
      }
    }
  }

  /** Trimming undoes the added spaces. */
  lemma SpacedTrimsBack(names: seq<string>)
    requires |names| >= 1
    requires forall n :: n in names ==> IsTrimmed(n)
    ensures forall k :: 0 <= k < |names| ==> Trim(Spaced(names)[k]) == names[k]
  {
    forall k | 0 <= k < |names| ensures Trim(Spaced(names)[k]) == names[k] {
      assert names[k] in names;
      if k > 0 {
        TrimOfPadded(" ", names[k], []);
        assert " " + names[k] + [] == Spaced(names)[k];
      } else {
        TrimmedIsFixed(names[k]);
      }
    }
  }

  /** Clean names joined with ", " parse back to themselves. */
  lemma ParseJoined(names: seq<string>)
    requires |names| >= 1
    requires forall n :: n in names ==> n != [] && IsTrimmed(n) && ',' !in n
    requires forall i, j :: 0 <= i < j < |names| ==> ToLower(names[i]) != ToLower(names[j])
    ensures KeepFirst(Split(Join(names, ", "), ','), Trim, ToLower) == names
  {
    var spaced := Spaced(names);
    JoinSpaced(names);
    SpacedHasNoComma(names);
    SplitJoin(spaced, ',');
    SpacedTrimsBack(names);
    forall k | 0 <= k < |names| ensures Trim(spaced[k]) == Trim(names[k]) {
      assert names[k] in names;
      TrimmedIsFixed(names[k]);
    }
    KeepFirstOfCleaned(spaced, names, Trim, ToLower);
    forall n | n in names ensures Trim(n) == n {
      TrimmedIsFixed(n);
    }
    KeepFirstOfDistinct(names, Trim, ToLower);
  }

  /** Parsing what was formatted from parsed names gives the same names:
      the text shown in the table reads back as the list it came from. */
  lemma ParseFormatParse(value: string)
    ensures ParsedTeacherNames(FormatTeacherNames(Some(ParsedTeacherNames(value)))) == ParsedTeacherNames(value)
  {
    var names := ParsedTeacherNames(value);
    ParsedTeacherNamesClean(value);
    if names == [] {
      assert Split("", ',') == [""];
      assert KeepFirst([""], Trim, ToLower) == AddName([], Trim(""), ToLower) by {
        assert [""][..0] == [];
      }
    } else {
      ParseJoined(names);
    }
  }

  // ---- Labels and messages ----

  /** `roleLabel(value)` */
  function RoleLabel(role: Option<AppRole>): (r: string)
    ensures r == "Unassigned" <==> role.None?
  {
    match role
    case Some(Admin) => "Full Access"
    case Some(StudentsOnly) => "Student Only"
    case None => "Unassigned"
  }

  /** Different roles, including no role, read differently. */
  lemma RoleLabelsDiffer(a: Option<AppRole>, b: Option<AppRole>)
    requires RoleLabel(a) == RoleLabel(b)
    ensures a == b
  {
    assert "Full Access" != "Student Only";
    assert "Full Access"[0] != "Unassigned"[0];
    assert "Student Only"[0] != "Unassigned"[0];
  }

  /** `getErrorMessage(error, fallback)`: an `Error`'s message unless it
      is blank; the fallback for a blank message and for anything else
      thrown. */
  function ErrorMessage(e: Thrown, fallback: string): (r: string)
    ensures r != fallback ==> e.ErrorObject? && r == e.message
    ensures e.ErrorObject? && !IsBlank(e.message) ==> r == e.message
    ensures IsBlank(r) ==> r == fallback
  {
    // `message.trim()` is empty exactly when the message is blank.
    if e.ErrorObject? && !IsBlank(e.message) then e.message else fallback
  }

  // ---- Save ----

  /** What `handleSave` does with the picked role and teacher text. */
  datatype SaveDecision =
    | NoSelection
    | Refuse(message: string)
    | Proceed(role: AppRole, teachers: seq<string>)

  function DecideSave(selectedRole: Option<AppRole>, teachersText: string, userId: string, actingUserId: Option<string>): (r: SaveDecision)
    ensures r.NoSelection? <==> selectedRole.None?
    ensures r == Refuse(SELF_DEMOTION) <==>
              selectedRole.Some? && actingUserId == Some(userId) && selectedRole.value != Admin
    ensures r == Refuse(TEACHER_REQUIRED) <==>
              selectedRole == Some(StudentsOnly) && actingUserId != Some(userId) && ParsedTeacherNames(teachersText) == []
    ensures r.Proceed? ==>
              Some(r.role) == selectedRole &&
              (actingUserId == Some(userId) ==> r.role == Admin) &&
              (r.role == StudentsOnly ==> r.teachers == ParsedTeacherNames(teachersText) && r.teachers != []) &&
              (r.role == Admin ==> r.teachers == [])
  {
    match selectedRole
    case None => NoSelection
    case Some(role) =>
      var teachers := ParsedTeacherNames(teachersText);
      if actingUserId == Some(userId) && role != Admin then Refuse(SELF_DEMOTION)
      else if role == StudentsOnly && teachers == [] then Refuse(TEACHER_REQUIRED)
      else Proceed(role, if role == StudentsOnly then teachers else [])
  }

  /** The records after a save: each record with the id gets the role and
      the teacher list; every other record is kept. */
  function SavedRecords(records: seq<UserAccess>, userId: string, role: AppRole, teachers: seq<string>): (r: seq<UserAccess>)
    ensures |r| == |records|
    ensures forall i :: 0 <= i < |records| ==>
              r[i].userId == records[i].userId && r[i].email == records[i].email &&
              r[i].createdAt == records[i].createdAt &&
              if records[i].userId == userId then r[i].role == Some(role) && r[i].assignedTeachers == Some(teachers)
              else r[i] == records[i]
  {
    seq(|records|, i requires 0 <= i < |records| =>
      if records[i].userId == userId then records[i].(role := Some(role), assignedTeachers := Some(teachers))
      else records[i])
  }

  /** A saved account has its new role, has teachers exactly when it is
      "students_only", and the acting user stays an admin. */
  lemma SaveKeepsTeachersWithStudentsOnly(records: seq<UserAccess>, selectedRole: Option<AppRole>, teachersText: string,
                                          userId: string, actingUserId: Option<string>, i: nat)
    requires DecideSave(selectedRole, teachersText, userId, actingUserId).Proceed?
    requires i < |records| && records[i].userId == userId
    ensures var d := DecideSave(selectedRole, teachersText, userId, actingUserId);
            var u := SavedRecords(records, userId, d.role, d.teachers)[i];
            Some(d.role) == selectedRole && u.role == selectedRole &&
            (u.role == Some(StudentsOnly) <==> u.assignedTeachers.Some? && u.assignedTeachers.value != []) &&
            (actingUserId == Some(userId) ==> u.role == Some(Admin))
  {
  }

  // ---- Create ----

  /** The checks of `handleCreateUser`, in order; on success, the request
      sent to the service. */
  function DecideCreate(email: string, password: string, role: AppRole, teachers: seq<string>): Result<CreateUserAccessInput, string> {
    if email == [] then Failure(EMAIL_REQUIRED)
    else if Utf16Length(password) < 6 then Failure(PASSWORD_TOO_SHORT)
    else if role == StudentsOnly && teachers == [] then Failure(TEACHER_REQUIRED)
    else Success(CreateUserAccessInput(email, password, role, Some(if role == StudentsOnly then teachers else [])))
  }

  /** The create form's fields as typed. */
  datatype CreateForm = CreateForm(email: string, password: string, role: AppRole, assignedTeachers: string)

  /** The form the card starts with and returns to after a creation. */
  const EMPTY_FORM := CreateForm("", "", StudentsOnly, "")

  /** The form as typed: the email trimmed and lower-cased, the teacher
      field parsed. */
  function CreateRequest(form: CreateForm): Result<CreateUserAccessInput, string> {
    DecideCreate(ToLower(Trim(form.email)), form.password, form.role, ParsedTeacherNames(form.assignedTeachers))
  }

  /** Each refusal of the form happens exactly when its check is the first
      to fail, and a request goes out exactly when all pass: the email
      trimmed and lower-cased, teachers only for "students_only". A blank
      email is a blank typed email. */
  lemma CreateRequestChecks(emailText: string, password: string, role: AppRole, teachersText: string)
    ensures var r := CreateRequest(CreateForm(emailText, password, role, teachersText));
            (r == Failure(EMAIL_REQUIRED) <==> IsBlank(emailText)) &&
            (r == Failure(PASSWORD_TOO_SHORT) <==> !IsBlank(emailText) && Utf16Length(password) < 6) &&
            (r == Failure(TEACHER_REQUIRED) <==>
               !IsBlank(emailText) && Utf16Length(password) >= 6 && role == StudentsOnly && ParsedTeacherNames(teachersText) == []) &&
            (r.Success? <==>
               !IsBlank(emailText) && Utf16Length(password) >= 6 && (role == StudentsOnly ==> ParsedTeacherNames(teachersText) != [])) &&
            (r.Success? ==>
               r.value.email == ToLower(Trim(emailText)) && r.value.password == password && r.value.role == role &&
               r.value.assignedTeachers == Some(if role == StudentsOnly then ParsedTeacherNames(teachersText) else []))
  {
    var email := ToLower(Trim(emailText));
    assert |email| == |Trim(emailText)|;
    assert email == [] <==> IsBlank(emailText);
    assert CreateRequest(CreateForm(emailText, password, role, teachersText)) ==
           DecideCreate(email, password, role, ParsedTeacherNames(teachersText));
  }

  lemma ToLowerKeepsTrimmed(s: string)
    requires IsTrimmed(s)
    ensures IsTrimmed(ToLower(s))
  {
    ToLowerKeepsWhitespace(s);
  }

  /** A request the card lets through passes the service's own email and
      password checks: the in-memory service can refuse it only as a
      duplicate. */
  lemma CreateRequestPassesServiceChecks(emailText: string, password: string, role: AppRole, teachersText: string,
                                         users: seq<UserAccess>)
    requires CreateRequest(CreateForm(emailText, password, role, teachersText)).Success?
    ensures var input := CreateRequest(CreateForm(emailText, password, role, teachersText)).value;
            var c := MockDataService.CheckNewUser(users, input);
            c.Success? || c == Failure("User with this email already exists.")
  {
    var input := CreateRequest(CreateForm(emailText, password, role, teachersText)).value;
    var t := Trim(emailText);
    ToLowerKeepsTrimmed(t);
    TrimmedIsFixed(ToLower(t));
    ToLowerIdempotent(t);
    assert MockDataService.NormalizeEmail(input.email) == input.email;
  }

  /** The records after a creation: the returned account replaces the first
      record with its id, in place, or comes first when there is none. */
  function CreatedRecords(records: seq<UserAccess>, created: UserAccess): (r: seq<UserAccess>)
    ensures FindIndex(records, MockDataService.UserHasId(created.userId)).None? ==> r == [created] + records
    ensures FindIndex(records, MockDataService.UserHasId(created.userId)).Some? ==>
              var k := FindIndex(records, MockDataService.UserHasId(created.userId)).value;
              |r| == |records| && r[k] == created && forall i :: 0 <= i < |records| && i != k ==> r[i] == records[i]
  {
    match FindIndex(records, MockDataService.UserHasId(created.userId))
    case None => [created] + records
    case Some(k) => records[k := created]
  }

  /** The created account is the one the card then finds under its id. */
  lemma CreatedRecordsFind(records: seq<UserAccess>, created: UserAccess)
    ensures Find(CreatedRecords(records, created), MockDataService.UserHasId(created.userId)) == Some(created)
  {
    var p := MockDataService.UserHasId(created.userId);
    var r := CreatedRecords(records, created);
    match FindIndex(records, p)
    case None =>
      FindIndexIsFirst(r, p, 0);
    case Some(k) =>
      FindIndexIsFirst(r, p, k);
  }

  // ---- Delete ----

  /** The records after a deletion: "user" drops every record with the id,
      "access" keeps them without role or teachers. */
  function DeletedRecords(records: seq<UserAccess>, userId: string, mode: DeleteMode): (r: seq<UserAccess>)
    ensures mode == WholeUser ==> forall u :: u in r <==> u in records && u.userId != userId
    ensures mode == AccessOnly ==>
              |r| == |records| &&
              forall i :: 0 <= i < |records| ==>
                r[i] == if records[i].userId == userId then records[i].(role := None, assignedTeachers := Some([]))
                        else records[i]
  {
    match mode
    case WholeUser => Filter(records, MockDataService.UserOtherThan(userId))
    case AccessOnly => seq(|records|, i requires 0 <= i < |records| =>
                         if records[i].userId == userId then records[i].(role := None, assignedTeachers := Some([]))
                         else records[i])
  }

  /** The card's list agrees with the service's after a deletion: exactly
      for "user", and up to the teacher lists for "access", which the card
      also clears. */
  lemma DeletedRecordsAgreeWithService(records: seq<UserAccess>, userId: string, mode: DeleteMode)
    ensures mode == WholeUser ==> DeletedRecords(records, userId, mode) == MockDataService.RemoveAccess(records, userId, mode)
    ensures var mine := DeletedRecords(records, userId, mode);
            var theirs := MockDataService.RemoveAccess(records, userId, mode);
            |mine| == |theirs| &&
            forall i :: 0 <= i < |mine| ==> mine[i].(assignedTeachers := theirs[i].assignedTeachers) == theirs[i]
  {
  }

  // ---- Listing ----

  /** The role picked for each account when the list loads:
      `users.reduce(...)`, a later record with the same id overriding an
      earlier one. */
  function RoleSelection(users: seq<UserAccess>): (r: map<string, AppRole>)
    ensures forall u :: u in users ==> u.userId in r
    decreases |users|
  {
    if users == [] then map[]
    else
      var last := users[|users| - 1];
      var prev := users[..|users| - 1];
      assert forall u :: u in users ==> u in prev || u == last;
      RoleSelection(prev)[last.userId := last.role.UnwrapOr(StudentsOnly)]
  }

  /** The teacher text shown for each account when the list loads. */
  function TeacherSelection(users: seq<UserAccess>): (r: map<string, string>)
    ensures forall u :: u in users ==> u.userId in r
    decreases |users|
  {
    if users == [] then map[]
    else
      var last := users[|users| - 1];
      var prev := users[..|users| - 1];
      assert forall u :: u in users ==> u in prev || u == last;
      TeacherSelection(prev)[last.userId := FormatTeacherNames(last.assignedTeachers)]
  }

  predicate IdsDistinct(users: seq<UserAccess>) {
    forall i, j :: 0 <= i < j < |users| ==> users[i].userId != users[j].userId
  }

  /** With distinct ids, each account's selection shows its stored role
      ("students_only" when it has none) and its stored teachers. */
  lemma {:induction false} SelectionShowsStoredAccess(users: seq<UserAccess>, i: nat)
    requires IdsDistinct(users) && i < |users|
    ensures RoleSelection(users)[users[i].userId] == users[i].role.UnwrapOr(StudentsOnly)
    ensures TeacherSelection(users)[users[i].userId] == FormatTeacherNames(users[i].assignedTeachers)
    decreases |users|
  {
    var m := |users| - 1;
    if i < m {
      var prev := users[..m];
      assert IdsDistinct(prev);
      assert prev[i] == users[i];
      SelectionShowsStoredAccess(prev, i);
    }
  }

  /** An account matches the search when its email, id, role name or one
      of its teachers contains the query, ignoring case. */
  predicate MatchesSearch(u: UserAccess, query: string) {
    Contains(ToLower(u.email), query) || Contains(ToLower(u.userId), query) ||
    Contains(ToLower(if u.role.Some? then RoleName(u.role.value) else ""), query) ||
    exists t :: t in u.assignedTeachers.UnwrapOr([]) && Contains(ToLower(t), query)
  }

  function MatchesQuery(query: string): UserAccess -> bool {
    (u: UserAccess) => MatchesSearch(u, query)
  }

  /** `filteredRecords`: everything for a blank search; otherwise the
      matching accounts, in order. */
  function FilteredRecords(records: seq<UserAccess>, searchTerm: string): (r: seq<UserAccess>)
    ensures IsBlank(searchTerm) ==> r == records
    ensures !IsBlank(searchTerm) ==>
              forall u :: u in r <==> u in records && MatchesSearch(u, ToLower(Trim(searchTerm)))
  {
    var query := ToLower(Trim(searchTerm));
    if query == [] then records else Filter(records, MatchesQuery(query))
  }

  /** The search keeps the list's order. */
  lemma FilteredRecordsInOrder(records: seq<UserAccess>, searchTerm: string)
    ensures IsSubsequence(FilteredRecords(records, searchTerm), records)
  {
    var query := ToLower(Trim(searchTerm));
    if query == [] {
      SubsequenceReflexive(records);
    } else {
      FilterIsSubsequence(records, MatchesQuery(query));
    }
  }

  // ---- The card ----

  /** The role picked for a row, if any. */
  function PickedRole(selection: map<string, AppRole>, userId: string): Option<AppRole> {
    if userId in selection then Some(selection[userId]) else None
  }

  /** The teacher text typed for a row, empty when none. */
  function TypedTeachers(selection: map<string, string>, userId: string): string {
    if userId in selection then selection[userId] else ""
  }

  /** The card's state: the accounts, the role and teacher text picked for
      each, the create form, the delete dialog and the banner texts. The
      in-flight flags (`loading`, `savingUserId`, ...) are not kept. */
  class AccessManagementCard {
    var records: seq<UserAccess>
    var selectedRoleByUser: map<string, AppRole>
    var selectedTeachersByUser: map<string, string>
    var form: CreateForm
    var deleteDialogOpen: bool
    var deleteTarget: Option<UserAccess>
    var message: Option<string>
    var error: Option<string>

    constructor()
      ensures records == [] && selectedRoleByUser == map[] && selectedTeachersByUser == map[] && form == EMPTY_FORM
      ensures !deleteDialogOpen && deleteTarget == None && message == None && error == None
    {
      records := [];
      selectedRoleByUser := map[];
      selectedTeachersByUser := map[];
      form := EMPTY_FORM;
      deleteDialogOpen := false;
      deleteTarget := None;
      message := None;
      error := None;
    }

    /** `loadUsers`: only an admin with authentication on loads the list;
        a loaded list replaces the records and both selections. */
    method LoadUsers(authEnabled: bool, role: Option<AppRole>, listed: Result<seq<UserAccess>, Thrown>)
      modifies this
      ensures !authEnabled || role != Some(Admin) ==>
                records == old(records) && selectedRoleByUser == old(selectedRoleByUser) &&
                selectedTeachersByUser == old(selectedTeachersByUser) && error == old(error)
      ensures authEnabled && role == Some(Admin) && listed.Success? ==>
                records == listed.value && error == None &&
                selectedRoleByUser == RoleSelection(listed.value) &&
                selectedTeachersByUser == TeacherSelection(listed.value)
      ensures authEnabled && role == Some(Admin) && listed.Failure? ==>
                records == old(records) && selectedRoleByUser == old(selectedRoleByUser) &&
                selectedTeachersByUser == old(selectedTeachersByUser) &&
                error == Some(ErrorMessage(listed.error, "Failed to load access records."))
      ensures message == old(message) && deleteTarget == old(deleteTarget) && deleteDialogOpen == old(deleteDialogOpen)
      ensures form == old(form)
    {
      if !authEnabled || role != Some(Admin) {
        return;
      }
      error := None;
      match listed
      case Success(users) =>
        records := users;
        selectedRoleByUser := RoleSelection(users);
        selectedTeachersByUser := TeacherSelection(users);
      case Failure(e) =>
        error := Some(ErrorMessage(e, "Failed to load access records."));
    }

    /** `handleSave(userId)`: refuses a self-demotion and a
        "students_only" role without teachers; otherwise asks the service
        (`updated`) and, when it succeeds, updates the record and, for
        the acting user's own row, reloads their role (`refreshed`). */
    method HandleSave(userId: string, actingUserId: Option<string>, updated: Outcome<Thrown>, refreshed: Outcome<Thrown>)
      modifies this
      ensures var d := DecideSave(PickedRole(old(selectedRoleByUser), userId),
                                  TypedTeachers(old(selectedTeachersByUser), userId), userId, actingUserId);
              (d.NoSelection? ==> records == old(records) && error == old(error) && message == old(message)) &&
              (d.Refuse? ==> records == old(records) && error == Some(d.message) && message == old(message)) &&
              (d.Proceed? && updated.Fail? ==>
                 records == old(records) && message == old(message) &&
                 error == Some(ErrorMessage(updated.error, "Failed to update access role."))) &&
              (d.Proceed? && updated.Pass? ==>
                 records == SavedRecords(old(records), userId, d.role, d.teachers) &&
                 if actingUserId == Some(userId) && refreshed.Fail? then
                   message == old(message) && error == Some(ErrorMessage(refreshed.error, "Failed to update access role."))
                 else
                   message == Some("Access role updated.") && error == None)
      ensures selectedRoleByUser == old(selectedRoleByUser) && selectedTeachersByUser == old(selectedTeachersByUser)
      ensures deleteTarget == old(deleteTarget) && deleteDialogOpen == old(deleteDialogOpen) && form == old(form)
    {
      var d := DecideSave(PickedRole(selectedRoleByUser, userId), TypedTeachers(selectedTeachersByUser, userId),
                          userId, actingUserId);
      match d
      case NoSelection =>
      case Refuse(m) =>
        error := Some(m);
      case Proceed(role, teachers) =>
        SaveAccepted(userId, role, teachers, actingUserId, updated, refreshed);
    }

    /** The save once its checks pass: the service's answers decide the
        record and the banners. */
    method SaveAccepted(userId: string, role: AppRole, teachers: seq<string>, actingUserId: Option<string>,
                        updated: Outcome<Thrown>, refreshed: Outcome<Thrown>)
      modifies this
      ensures updated.Fail? ==>
                records == old(records) && message == old(message) &&
                error == Some(ErrorMessage(updated.error, "Failed to update access role."))
      ensures updated.Pass? ==> records == SavedRecords(old(records), userId, role, teachers)
      ensures updated.Pass? && actingUserId == Some(userId) && refreshed.Fail? ==>
                message == old(message) && error == Some(ErrorMessage(refreshed.error, "Failed to update access role."))
      ensures updated.Pass? && !(actingUserId == Some(userId) && refreshed.Fail?) ==>
                message == Some("Access role updated.") && error == None
      ensures selectedRoleByUser == old(selectedRoleByUser) && selectedTeachersByUser == old(selectedTeachersByUser)
      ensures deleteTarget == old(deleteTarget) && deleteDialogOpen == old(deleteDialogOpen) && form == old(form)
    {
      error := None;
      if updated.Fail? {
        error := Some(ErrorMessage(updated.error, "Failed to update access role."));
        return;
      }
      records := SavedRecords(records, userId, role, teachers);
      if actingUserId == Some(userId) && refreshed.Fail? {
        error := Some(ErrorMessage(refreshed.error, "Failed to update access role."));
        return;
      }
      message := Some("Access role updated.");
    }

    /** The form's checks on the typed values. */
    method CheckCreateForm() returns (d: Result<CreateUserAccessInput, string>)
      ensures d == CreateRequest(form)
    {
      var email := ToLower(Trim(form.email));
      var teachers := ParseTeacherNames(form.assignedTeachers);
      d := DecideCreate(email, form.password, form.role, teachers);
    }

    /** A creation the service refused: the error is shown and the form
        stays as typed. */
    method CreateRefused(e: Thrown)
      modifies this
      ensures records == old(records) && message == None && error == Some(ErrorMessage(e, "Failed to add user."))
      ensures selectedRoleByUser == old(selectedRoleByUser) && selectedTeachersByUser == old(selectedTeachersByUser)
      ensures form == old(form) && deleteTarget == old(deleteTarget) && deleteDialogOpen == old(deleteDialogOpen)
    {
      message := None;
      error := Some(ErrorMessage(e, "Failed to add user."));
    }

    /** A creation the service accepted: the returned account is put in
        the list and its row's selections, and the form is emptied. */
    method CreateAccepted(account: UserAccess)
      modifies this
      ensures records == CreatedRecords(old(records), account)
      ensures selectedRoleByUser == old(selectedRoleByUser)[account.userId := account.role.UnwrapOr(StudentsOnly)]
      ensures selectedTeachersByUser == old(selectedTeachersByUser)[account.userId := FormatTeacherNames(account.assignedTeachers)]
      ensures form == EMPTY_FORM && message == Some("New user added successfully.") && error == None
      ensures deleteTarget == old(deleteTarget) && deleteDialogOpen == old(deleteDialogOpen)
    {
      records := CreatedRecords(records, account);
      selectedRoleByUser := selectedRoleByUser[account.userId := account.role.UnwrapOr(StudentsOnly)];
      selectedTeachersByUser := selectedTeachersByUser[account.userId := FormatTeacherNames(account.assignedTeachers)];
      form := EMPTY_FORM;
      error := None;
      message := Some("New user added successfully.");
    }

    /** `handleCreateUser`: checks the form and, when it passes, sends the
        request (returned as `sent`) and applies the service's answer. */
    method HandleCreateUser(created: Result<UserAccess, Thrown>) returns (sent: Option<CreateUserAccessInput>)
      modifies this
      ensures var d := CreateRequest(old(form));
              (d.Failure? ==>
                 sent == None && records == old(records) && error == Some(d.error) && message == old(message) &&
                 selectedRoleByUser == old(selectedRoleByUser) && selectedTeachersByUser == old(selectedTeachersByUser) &&
                 form == old(form)) &&
              (d.Success? ==> sent == Some(d.value))
      ensures CreateRequest(old(form)).Success? && created.Failure? ==>
                records == old(records) && message == None &&
                error == Some(ErrorMessage(created.error, "Failed to add user.")) &&
                selectedRoleByUser == old(selectedRoleByUser) && selectedTeachersByUser == old(selectedTeachersByUser) &&
                form == old(form)
      ensures CreateRequest(old(form)).Success? && created.Success? ==>
                records == CreatedRecords(old(records), created.value) &&
                selectedRoleByUser == old(selectedRoleByUser)[created.value.userId := created.value.role.UnwrapOr(StudentsOnly)] &&
                selectedTeachersByUser ==
                  old(selectedTeachersByUser)[created.value.userId := FormatTeacherNames(created.value.assignedTeachers)] &&
                form == EMPTY_FORM && message == Some("New user added successfully.") && error == None
      ensures deleteTarget == old(deleteTarget) && deleteDialogOpen == old(deleteDialogOpen)
    {
      var d := CheckCreateForm();
      if d.Failure? {
        error := Some(d.error);
        return None;
      }
      sent := Some(d.value);
      match created
      case Failure(e) => CreateRefused(e);
      case Success(account) => CreateAccepted(account);
    }

    /** `openDeleteDialog(item)` */
    method OpenDeleteDialog(item: UserAccess)
      modifies this
      ensures deleteTarget == Some(item) && deleteDialogOpen && error == None
      ensures records == old(records) && message == old(message) && form == old(form)
      ensures selectedRoleByUser == old(selectedRoleByUser) && selectedTeachersByUser == old(selectedTeachersByUser)
    {
      deleteTarget := Some(item);
      deleteDialogOpen := true;
      error := None;
    }

    /** `handleDelete(mode)`: the acting user's own account is never
        deleted; otherwise the service is asked (`deleted`) and, when it
        succeeds, the record is dropped ("user") or emptied ("access"). */
    method HandleDelete(mode: DeleteMode, actingUserId: Option<string>, deleted: Outcome<Thrown>)
      modifies this
      ensures old(deleteTarget).None? ==>
                records == old(records) && error == old(error) && message == old(message) &&
                deleteDialogOpen == old(deleteDialogOpen) && deleteTarget == old(deleteTarget)
      ensures old(deleteTarget).Some? && actingUserId == Some(old(deleteTarget).value.userId) ==>
                records == old(records) && message == old(message) &&
                error == Some(SELF_DELETION) && !deleteDialogOpen && deleteTarget == None
      ensures old(deleteTarget).Some? && actingUserId != Some(old(deleteTarget).value.userId) && deleted.Fail? ==>
                records == old(records) && message == None &&
                error == Some(ErrorMessage(deleted.error, "Failed to delete user/access.")) &&
                deleteDialogOpen == old(deleteDialogOpen) && deleteTarget == old(deleteTarget)
      ensures old(deleteTarget).Some? && actingUserId != Some(old(deleteTarget).value.userId) && deleted.Pass? ==>
                var id := old(deleteTarget).value.userId;
                records == DeletedRecords(old(records), id, mode) && error == None &&
                !deleteDialogOpen && deleteTarget == None &&
                (mode == WholeUser ==>
                   selectedRoleByUser == old(selectedRoleByUser) - {id} &&
                   selectedTeachersByUser == old(selectedTeachersByUser) - {id} &&
                   message == Some("User deleted successfully.")) &&
                (mode == AccessOnly ==>
                   selectedRoleByUser == old(selectedRoleByUser)[id := StudentsOnly] &&
                   selectedTeachersByUser == old(selectedTeachersByUser)[id := ""] &&
                   message == Some("Access removed successfully."))
      ensures !(old(deleteTarget).Some? && actingUserId != Some(old(deleteTarget).value.userId) && deleted.Pass?) ==>
                selectedRoleByUser == old(selectedRoleByUser) && selectedTeachersByUser == old(selectedTeachersByUser)
      ensures form == old(form)
    {
      if deleteTarget.None? {
        return;
      }
      var id := deleteTarget.value.userId;
      if actingUserId == Some(id) {
        error := Some(SELF_DELETION);
        deleteDialogOpen := false;
        deleteTarget := None;
        return;
      }
      error := None;
      message := None;
      if deleted.Fail? {
        error := Some(ErrorMessage(deleted.error, "Failed to delete user/access."));
        return;
      }
      DeleteAccepted(id, mode);
    }

    /** The service deleted the user (or their access): the card drops the
        record (or empties it), resets the user's edits and closes the
        dialog. */
    method DeleteAccepted(id: string, mode: DeleteMode)
      modifies this
      ensures records == DeletedRecords(old(records), id, mode) && error == old(error) &&
              !deleteDialogOpen && deleteTarget == None && form == old(form)
      ensures mode == WholeUser ==>
                selectedRoleByUser == old(selectedRoleByUser) - {id} &&
                selectedTeachersByUser == old(selectedTeachersByUser) - {id} &&
                message == Some("User deleted successfully.")
      ensures mode == AccessOnly ==>
                selectedRoleByUser == old(selectedRoleByUser)[id := StudentsOnly] &&
                selectedTeachersByUser == old(selectedTeachersByUser)[id := ""] &&
                message == Some("Access removed successfully.")
    {
      records := DeletedRecords(records, id, mode);
      if mode == WholeUser {
        selectedRoleByUser := selectedRoleByUser - {id};
        selectedTeachersByUser := selectedTeachersByUser - {id};
        message := Some("User deleted successfully.");
      } else {
        selectedRoleByUser := selectedRoleByUser[id := StudentsOnly];
        selectedTeachersByUser := selectedTeachersByUser[id := ""];
        message := Some("Access removed successfully.");
      }
      deleteDialogOpen := false;
      deleteTarget := None;
    }
  }
}
