/** The profile routes of backend/routes/users.js: complete-profile, the partial update of
    `PUT /profile` with its dynamically built `SET` list, the user directory `/all`, the
    avatar URL and the theme preference. The caller is the authenticated user id. */
module Users {
  import opened Common
  import opened Query
  import opened Tables

  /** A `dateOfBirth` field as sent: an ISO 8601 date, or some other text. */
  datatype DateInput = Iso(date: Date) | NotIso(text: string)

  predicate GenderOk(g: string) {
    g == "Nam" || g == "Nữ" || g == "Khác"
  }

  /** `trim().isLength({ min: 2, max: 100 })`. */
  predicate NameLengthOk(s: string) {
    2 <= ValidatorLength(Trim(s)) <= 100
  }

  /** The validators of POST /complete-profile: a full name of 2 to 100 characters after
      trimming (as `isLength` counts them), an ISO 8601 birth date whose year lies 13 to 120 years before the current
      year, and one of the three genders. */
  predicate CompleteValid(fullName: Option<string>, dateOfBirth: Option<DateInput>, gender: Option<string>, currentYear: int) {
    fullName.Some? && NameLengthOk(fullName.value)
    && dateOfBirth.Some? && dateOfBirth.value.Iso?
    && 13 <= currentYear - dateOfBirth.value.date.year <= 120
    && gender.Some? && GenderOk(gender.value)
  }

  /** POST /complete-profile. A failed validator gives 400, an already completed profile 400,
      a missing user row a server error (the row is read before the check); otherwise the
      trimmed name, the birth date and the gender are written and the profile is marked
      completed. */
  method CompleteProfile(db: Db, caller: int, fullName: Option<string>, dateOfBirth: Option<DateInput>,
                         gender: Option<string>, currentYear: int, now: int)
      returns (status: Status)
    modifies db`users
    ensures !CompleteValid(fullName, dateOfBirth, gender, currentYear) ==> status == BadRequest && unchanged(db)
    ensures CompleteValid(fullName, dateOfBirth, gender, currentYear) && FindUser(old(db.users), caller).None? ==>
      status == ServerError && unchanged(db)
    ensures (CompleteValid(fullName, dateOfBirth, gender, currentYear) && FindUser(old(db.users), caller).Some?
      && FindUser(old(db.users), caller).value.profileCompleted) ==>
      status == BadRequest && unchanged(db)
    ensures (CompleteValid(fullName, dateOfBirth, gender, currentYear) && FindUser(old(db.users), caller).Some?
      && !FindUser(old(db.users), caller).value.profileCompleted) ==>
      status == Ok
      && db.users == UpdateUser(old(db.users), caller, (u: User) => u.(fullName := Some(Trim(fullName.value)),
           dateOfBirth := Some(dateOfBirth.value.date), gender := gender, profileCompleted := true, updatedAt := now))
  {
    if !CompleteValid(fullName, dateOfBirth, gender, currentYear) {
      return BadRequest;
    }
    var found := FindUser(db.users, caller);
    if found.None? {
      return ServerError;
    }
    if found.value.profileCompleted {
      return BadRequest;
    }
    var name := Trim(fullName.value);
    var dob := dateOfBirth.value.date;
    db.users := UpdateUser(db.users, caller, (u: User) => u.(fullName := Some(name), dateOfBirth := Some(dob),
                  gender := gender, profileCompleted := true, updatedAt := now));
    return Ok;
  }

  /** Completing the profile marks the caller's row completed, so a second attempt is refused. */
  lemma CompleteProfileOnce(us: seq<User>, caller: int, name: string, dob: Date, gender: Option<string>, now: int)
    requires FindUser(us, caller).Some?
    ensures var r := UpdateUser(us, caller, (u: User) => u.(fullName := Some(name), dateOfBirth := Some(dob),
              gender := gender, profileCompleted := true, updatedAt := now));
      FindUser(r, caller).Some? && FindUser(r, caller).value.profileCompleted
  {
    var r := UpdateUser(us, caller, (u: User) => u.(fullName := Some(name), dateOfBirth := Some(dob),
               gender := gender, profileCompleted := true, updatedAt := now));
    var k :| 0 <= k < |us| && us[k].userId == caller;
    assert r[k].userId == caller;
  }

  // ----- PUT /profile -----

  /** One entry of `updateFields` with its input. */
  datatype Assignment =
    | SetFullName(fullName: string)
    | SetDateOfBirth(dateOfBirth: Date)
    | SetGender(gender: string)
    | SetDisplayName(displayName: string)

  /** The optional validators of PUT /profile: each field, when sent, must pass its check. */
  predicate ProfileValid(fullName: Option<string>, dateOfBirth: Option<DateInput>, gender: Option<string>, displayName: Option<string>) {
    (fullName.Some? ==> NameLengthOk(fullName.value))
    && (dateOfBirth.Some? ==> dateOfBirth.value.Iso?)
    && (gender.Some? ==> GenderOk(gender.value))
    && (displayName.Some? ==> NameLengthOk(displayName.value))
  }

  predicate IsFullName(a: Assignment) { a.SetFullName? }
  predicate IsDateOfBirth(a: Assignment) { a.SetDateOfBirth? }
  predicate IsGender(a: Assignment) { a.SetGender? }
  predicate IsDisplayName(a: Assignment) { a.SetDisplayName? }

  /** `if (fullName) updateFields.push(...)` and its three siblings: one entry when the field is
      sent and truthy (the names trimmed by the sanitizers). */
  function FullNameEntry(fullName: Option<string>): seq<Assignment> {
    if fullName.Some? && Trim(fullName.value) != "" then [SetFullName(Trim(fullName.value))] else []
  }

  function DateOfBirthEntry(dateOfBirth: Option<DateInput>): seq<Assignment> {
    if dateOfBirth.Some? && dateOfBirth.value.Iso? then [SetDateOfBirth(dateOfBirth.value.date)] else []
  }

  function GenderEntry(gender: Option<string>): seq<Assignment> {
    if gender.Some? && gender.value != "" then [SetGender(gender.value)] else []
  }

  function DisplayNameEntry(displayName: Option<string>): seq<Assignment> {
    if displayName.Some? && Trim(displayName.value) != "" then [SetDisplayName(Trim(displayName.value))] else []
  }

  /** The `updateFields` list, in the order full name, birth date, gender, display name. On
      validated input it is empty exactly when no field was sent. */
  function Requested(fullName: Option<string>, dateOfBirth: Option<DateInput>, gender: Option<string>, displayName: Option<string>): (r: seq<Assignment>)
    requires ProfileValid(fullName, dateOfBirth, gender, displayName)
    ensures |r| <= 4
    ensures r == [] <==> fullName.None? && dateOfBirth.None? && gender.None? && displayName.None?
  {
    FullNameEntry(fullName) + DateOfBirthEntry(dateOfBirth) + GenderEntry(gender) + DisplayNameEntry(displayName)
  }

  /** The pushes of the handler build exactly that list. */
  method BuildUpdate(fullName: Option<string>, dateOfBirth: Option<DateInput>, gender: Option<string>, displayName: Option<string>)
      returns (fields: seq<Assignment>)
    requires ProfileValid(fullName, dateOfBirth, gender, displayName)
    ensures fields == Requested(fullName, dateOfBirth, gender, displayName)
  {
    fields := [];
    if fullName.Some? && Trim(fullName.value) != "" {
      fields := fields + [SetFullName(Trim(fullName.value))];
    }
    assert fields == FullNameEntry(fullName);
    if dateOfBirth.Some? {
      fields := fields + [SetDateOfBirth(dateOfBirth.value.date)];
    }
    assert fields == FullNameEntry(fullName) + DateOfBirthEntry(dateOfBirth);
    if gender.Some? && gender.value != "" {
      fields := fields + [SetGender(gender.value)];
    }
    assert fields == FullNameEntry(fullName) + DateOfBirthEntry(dateOfBirth) + GenderEntry(gender);
    if displayName.Some? && Trim(displayName.value) != "" {
      fields := fields + [SetDisplayName(Trim(displayName.value))];
    }
  }

  function Assign(u: User, a: Assignment): User {
    match a
    case SetFullName(n) => u.(fullName := Some(n))
    case SetDateOfBirth(d) => u.(dateOfBirth := Some(d))
    case SetGender(g) => u.(gender := Some(g))
    case SetDisplayName(n) => u.(displayName := n)
  }

  /** `UPDATE Users SET <fields>, updated_at = GETDATE()` on one row. */
  function ApplyAll(u: User, fields: seq<Assignment>): (r: User)
    ensures r.userId == u.userId && r.username == u.username && r.email == u.email
    ensures r.passwordHash == u.passwordHash && r.avatarUrl == u.avatarUrl && r.profileCompleted == u.profileCompleted
    ensures r.isOnline == u.isOnline && r.lastSeen == u.lastSeen && r.theme == u.theme
    ensures r.createdAt == u.createdAt && r.updatedAt == u.updatedAt
    ensures (forall i :: 0 <= i < |fields| ==> !fields[i].SetDisplayName?) ==> r.displayName == u.displayName
    decreases |fields|
  {
    if fields == [] then u else ApplyAll(Assign(u, fields[0]), fields[1..])
  }

  lemma {:induction false} ApplyAllAppend(u: User, a: seq<Assignment>, b: seq<Assignment>)
    ensures ApplyAll(u, a + b) == ApplyAll(ApplyAll(u, a), b)
    decreases |a|
  {
    if a != [] {
      assert (a + b)[1..] == a[1..] + b;
      ApplyAllAppend(Assign(u, a[0]), a[1..], b);
    } else {
      assert a + b == b;
    }
  }

  /** The effect of a profile update on the caller's row: each field sent is written with its
      (trimmed) value, each field not sent keeps its value, and nothing else is touched. */
  lemma ProfileUpdateEffect(u: User, fullName: Option<string>, dateOfBirth: Option<DateInput>, gender: Option<string>, displayName: Option<string>)
    requires ProfileValid(fullName, dateOfBirth, gender, displayName)
    ensures var r := ApplyAll(u, Requested(fullName, dateOfBirth, gender, displayName));
      r.fullName == (if fullName.Some? then Some(Trim(fullName.value)) else u.fullName)
      && r.dateOfBirth == (if dateOfBirth.Some? then Some(dateOfBirth.value.date) else u.dateOfBirth)
      && r.gender == (if gender.Some? then gender else u.gender)
      && r.displayName == (if displayName.Some? then Trim(displayName.value) else u.displayName)
      && r.(fullName := u.fullName, dateOfBirth := u.dateOfBirth, gender := u.gender, displayName := u.displayName) == u
  {
    var p1, p2, p3, p4 := FullNameEntry(fullName), DateOfBirthEntry(dateOfBirth), GenderEntry(gender), DisplayNameEntry(displayName);
    RequestedInSteps(u, fullName, dateOfBirth, gender, displayName);
    var u1 := ApplyAll(u, p1);
    var u2 := ApplyAll(u1, p2);
    var u3 := ApplyAll(u2, p3);
    ApplyFullName(u, fullName);
    ApplyDateOfBirth(u1, dateOfBirth);
    ApplyGender(u2, gender);
    ApplyDisplayName(u3, displayName);
  }

  /** The four entries of the update are applied one after the other. */
  lemma RequestedInSteps(u: User, fullName: Option<string>, dateOfBirth: Option<DateInput>, gender: Option<string>, displayName: Option<string>)
    requires ProfileValid(fullName, dateOfBirth, gender, displayName)
    ensures ApplyAll(u, Requested(fullName, dateOfBirth, gender, displayName))
      == ApplyAll(ApplyAll(ApplyAll(ApplyAll(u, FullNameEntry(fullName)), DateOfBirthEntry(dateOfBirth)), GenderEntry(gender)), DisplayNameEntry(displayName))
  {
    var p1, p2, p3, p4 := FullNameEntry(fullName), DateOfBirthEntry(dateOfBirth), GenderEntry(gender), DisplayNameEntry(displayName);
    ApplyAllAppend(u, p1 + p2 + p3, p4);
    ApplyAllAppend(u, p1 + p2, p3);
    ApplyAllAppend(u, p1, p2);
  }

  lemma ApplyFullName(u: User, fullName: Option<string>)
    requires fullName.Some? ==> Trim(fullName.value) != ""
    ensures ApplyAll(u, FullNameEntry(fullName)) == u.(fullName := if fullName.Some? then Some(Trim(fullName.value)) else u.fullName)
  {
    ApplyOne(u, FullNameEntry(fullName));
  }

  lemma ApplyDateOfBirth(u: User, dateOfBirth: Option<DateInput>)
    requires dateOfBirth.Some? ==> dateOfBirth.value.Iso?
    ensures ApplyAll(u, DateOfBirthEntry(dateOfBirth)) == u.(dateOfBirth := if dateOfBirth.Some? then Some(dateOfBirth.value.date) else u.dateOfBirth)
  {
    ApplyOne(u, DateOfBirthEntry(dateOfBirth));
  }

  lemma ApplyGender(u: User, gender: Option<string>)
    requires gender.Some? ==> GenderOk(gender.value)
    ensures ApplyAll(u, GenderEntry(gender)) == u.(gender := if gender.Some? then gender else u.gender)
  {
    ApplyOne(u, GenderEntry(gender));
  }

  lemma ApplyDisplayName(u: User, displayName: Option<string>)
    requires displayName.Some? ==> Trim(displayName.value) != ""
    ensures ApplyAll(u, DisplayNameEntry(displayName)) == u.(displayName := if displayName.Some? then Trim(displayName.value) else u.displayName)
  {
    ApplyOne(u, DisplayNameEntry(displayName));
  }

  /** Applying at most one assignment. */
  lemma ApplyOne(u: User, p: seq<Assignment>)
    requires |p| <= 1
    ensures ApplyAll(u, p) == if p == [] then u else Assign(u, p[0])
  {
    if p != [] {
      assert p[1..] == [];
    }
  }

  /** PUT /profile. A field that fails its validator gives 400, and so does a request with no
      field to write; otherwise the caller's row gets exactly the fields sent, and
      `updated_at`. */
  method UpdateProfile(db: Db, caller: int, fullName: Option<string>, dateOfBirth: Option<DateInput>,
                       gender: Option<string>, displayName: Option<string>, now: int)
      returns (status: Status)
    modifies db`users
    ensures !ProfileValid(fullName, dateOfBirth, gender, displayName) ==> status == BadRequest && unchanged(db)
    ensures ProfileValid(fullName, dateOfBirth, gender, displayName) ==>
      (status == BadRequest <==> Requested(fullName, dateOfBirth, gender, displayName) == [])
    ensures ProfileValid(fullName, dateOfBirth, gender, displayName) && status == BadRequest ==> unchanged(db)
    ensures ProfileValid(fullName, dateOfBirth, gender, displayName) && Requested(fullName, dateOfBirth, gender, displayName) != [] ==>
      status == Ok
    ensures status == Ok ==>
      ProfileValid(fullName, dateOfBirth, gender, displayName)
      && db.users == UpdateUser(old(db.users), caller,
           (u: User) => ApplyAll(u, Requested(fullName, dateOfBirth, gender, displayName)).(updatedAt := now))
  {
    if !ProfileValid(fullName, dateOfBirth, gender, displayName) {
      return BadRequest;
    }
    var fields := BuildUpdate(fullName, dateOfBirth, gender, displayName);
    if fields == [] {
      return BadRequest;
    }
    db.users := UpdateUser(db.users, caller, (u: User) => ApplyAll(u, fields).(updatedAt := now));
    return Ok;
  }

  // ----- GET /all -----

  /** `user_id != @user_id AND profile_completed = 1`, and with a non-empty search, a
      substring of the username, the display name or the full name (a null full name never
      matches). */
  predicate Listed(u: User, caller: int, search: Option<string>) {
    u.userId != caller && u.profileCompleted
    && (Present(search) ==>
          Like(u.username, search.value) || Like(u.displayName, search.value)
          || (u.fullName.Some? && Like(u.fullName.value, search.value)))
  }

  /** `ORDER BY is_online DESC, display_name ASC`. */
  predicate DirectoryOrder(a: User, b: User) {
    (a.isOnline && !b.isOnline) || (a.isOnline == b.isOnline && StrLe(a.displayName, b.displayName))
  }

  lemma DirectoryOrderIsTotalPreorder()
    ensures TotalPreorder(DirectoryOrder)
  {
    forall a: User, b: User ensures DirectoryOrder(a, b) || DirectoryOrder(b, a) {
      StrLeTotal(a.displayName, b.displayName);
    }
    forall a: User, b: User, c: User | DirectoryOrder(a, b) && DirectoryOrder(b, c) ensures DirectoryOrder(a, c) {
      if a.isOnline == b.isOnline && b.isOnline == c.isOnline {
        StrLeTransitive(a.displayName, b.displayName, c.displayName);
      }
    }
  }

  /** GET /all: exactly the listed users, online ones first, then by display name. */
  function Directory(db: Db, caller: int, search: Option<string>): (r: seq<User>)
    reads db
    ensures SortedBy(r, DirectoryOrder)
    ensures forall i :: 0 <= i < |r| ==> r[i] in db.users && Listed(r[i], caller, search)
    ensures forall j :: 0 <= j < |db.users| && Listed(db.users[j], caller, search) ==> db.users[j] in r
    ensures multiset(r) <= multiset(db.users)
  {
    var hits := Filter(db.users, (u: User) => Listed(u, caller, search));
    DirectoryOrderIsTotalPreorder();
    SortByIsSorted(hits, DirectoryOrder);
    var r := SortBy(hits, DirectoryOrder);
    forall i | 0 <= i < |r| ensures r[i] in db.users && Listed(r[i], caller, search) {
      assert r[i] in multiset(hits);
    }
    forall j | 0 <= j < |db.users| && Listed(db.users[j], caller, search) ensures db.users[j] in r {
      assert db.users[j] in multiset(hits);
    }
    r
  }

  /** The caller never appears in their own directory. */
  lemma DirectoryExcludesCaller(db: Db, caller: int, search: Option<string>, i: nat)
    requires i < |Directory(db, caller, search)|
    ensures Directory(db, caller, search)[i].userId != caller
  {
  }

  // ----- POST /upload-avatar and /update-theme -----

  /** POST /upload-avatar: a missing or empty URL gives 400; otherwise it is stored
      (`updated_at` is not touched). */
  method UploadAvatar(db: Db, caller: int, avatarUrl: Option<string>) returns (status: Status)
    modifies db`users
    ensures !Present(avatarUrl) ==> status == BadRequest && unchanged(db)
    ensures Present(avatarUrl) ==>
      status == Ok && db.users == UpdateUser(old(db.users), caller, (u: User) => u.(avatarUrl := avatarUrl))
  {
    if !Present(avatarUrl) {
      return BadRequest;
    }
    db.users := UpdateUser(db.users, caller, (u: User) => u.(avatarUrl := avatarUrl));
    return Ok;
  }

  predicate ThemeOk(theme: Option<string>) {
    theme == Some("light") || theme == Some("dark")
  }

  /** POST /update-theme: only `light` and `dark` are accepted. */
  method UpdateTheme(db: Db, caller: int, theme: Option<string>) returns (status: Status)
    modifies db`users
    ensures !ThemeOk(theme) ==> status == BadRequest && unchanged(db)
    ensures ThemeOk(theme) ==> status == Ok && db.users == UpdateUser(old(db.users), caller, (u: User) => u.(theme := theme))
  {
    if !ThemeOk(theme) {
      return BadRequest;
    }
    db.users := UpdateUser(db.users, caller, (u: User) => u.(theme := theme));
    return Ok;
  }

  /** Stored themes stay `light`, `dark` or unset across an accepted update. */
  lemma UpdateThemeKeepsThemes(us: seq<User>, caller: int, theme: Option<string>, i: nat)
    requires ThemeOk(theme) && i < |us|
    requires us[i].theme.None? || ThemeOk(us[i].theme)
    ensures var r := UpdateUser(us, caller, (u: User) => u.(theme := theme));
      r[i].theme.None? || ThemeOk(r[i].theme)
  {
  }
}
