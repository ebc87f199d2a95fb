/** The user router (controllers/userController.ts; its compiled twin
    dist/controllers/userController.js has the same handlers plus promote and
    demote): the age computation, the profile create and patch rules, the
    null-stripping read, and the role transitions. Users are keyed by email;
    a profile is a stored row of named columns. */
module UserController {
  import opened Entities
  import opened JsObject
  import Access

  /** A user row with the parts these handlers read or write. */
  datatype User = User(userId: string, email: string, role: Role, profile: Option<Entries>)

  /** The body fields both profile handlers destructure, in their order. */
  const ProfileFields: seq<string> :=
    ["firstName", "lastName", "phone", "address1", "city1", "address2", "city2",
     "address3", "city3", "address4", "city4", "dob"]

  /** The profile columns a create fills: the body fields, the age and the
      owner. */
  const ProfileColumns: seq<string> := ProfileFields + ["age", "userId"]

  /** Component-wise date order: year, then month, then day. */
  predicate OnOrBefore(a: Date, b: Date) {
    a.year < b.year || (a.year == b.year && (a.month < b.month || (a.month == b.month && a.day <= b.day)))
  }

  /** The `n`-th anniversary of `birthday`. */
  function Anniversary(birthday: Date, n: int): Date {
    Date(birthday.year + n, birthday.month, birthday.day)
  }

  /** `calculateAge`, with the current date as the parameter `today`: the
      number of whole years since `birthday`, that is the `n` whose
      anniversary has come and whose next one has not. */
  function CalculateAge(today: Date, birthday: Date): (age: int)
    ensures OnOrBefore(Anniversary(birthday, age), today)
    ensures !OnOrBefore(Anniversary(birthday, age + 1), today)
  {
    var age := today.year - birthday.year;
    var monthDifference := today.month - birthday.month;
    if monthDifference < 0 || (monthDifference == 0 && today.day < birthday.day) then age - 1 else age
  }

  /** Only one count of years has the property, so the age is determined by
      it. */
  lemma AgeIsTheWholeYears(today: Date, birthday: Date, n: int)
    requires OnOrBefore(Anniversary(birthday, n), today)
    requires !OnOrBefore(Anniversary(birthday, n + 1), today)
    ensures n == CalculateAge(today, birthday)
  {
  }

  /** On the birthday itself the full year difference counts; the day before
      it does not yet. */
  lemma AgeOnBirthday(today: Date, birthday: Date)
    requires today.month == birthday.month && today.day == birthday.day
    ensures CalculateAge(today, birthday) == today.year - birthday.year
    ensures CalculateAge(today.(day := today.day - 1), birthday) == today.year - birthday.year - 1
  {
  }

  /** A later date never gives a smaller age. */
  lemma AgeNeverDecreases(t1: Date, t2: Date, birthday: Date)
    requires OnOrBefore(t1, t2)
    ensures CalculateAge(t1, birthday) <= CalculateAge(t2, birthday)
  {
  }

  /** What a handler answers, with the user table after it. */
  datatype Answer = Answer(status: Status, users: map<string, User>, body: Option<Entries>)

  function RoleName(role: Role): string {
    match role
    case BASIC => "BASIC"
    case VERIFIED => "VERIFIED"
    case ADMIN => "ADMIN"
  }

  /** The value read out of the body for field `k`. */
  function Field(body: Entries): string -> Value {
    k => Get(body, k)
  }

  /** A value the update leaves out: `null` and `undefined`. */
  predicate Unset(v: Value) {
    v == Null || v == Undefined
  }

  /** The `data` of the profile create: the body's `fields`, the parsed
      birthday as `dob`, its age, and the owner's id. */
  function CreateData(fields: seq<string>, body: Entries, birthday: Date, today: Date, userId: string): Entries {
    Set(Set(Set(Fields(fields, Field(body)), "dob", When(birthday)),
            "age", Number(CalculateAge(today, birthday))), "userId", Text(userId))
  }

  /** The stored row a create makes from `data`: every column `null` unless
      the data gives it a value. */
  function CreatedRow(columns: seq<string>, data: Entries): Entries {
    Written(Fields(columns, _ => Null), data)
  }

  /** The profile row a create stores for the user `userId`. */
  function NewProfileRow(userId: string, body: Entries, birthday: Date, today: Date): Entries {
    CreatedRow(ProfileColumns, CreateData(ProfileFields, body, birthday, today, userId))
  }

  /** POST `/:email/profile` (any signed-in caller). `birthday` stands for
      `new Date(dob)` and `today` for the clock. 404 for an unknown email; a
      store error when the user already has a profile (one profile per
      user); otherwise the profile is stored, the user's role becomes
      VERIFIED whatever it was, and the answer is the row with role and
      email, stripped of its null entries. */
  function ProfileCreate(users: map<string, User>, email: string, body: Entries, birthday: Date,
                         today: Date): (r: Answer)
    ensures r.status == NotFound <==> email !in users
    ensures r.status == Ok <==> email in users && users[email].profile.None?
    ensures r.status in {NotFound, Ok, ServerError}
    ensures r.status != Ok ==> r.users == users && r.body.None?
    ensures r.status == Ok ==>
      && r.users.Keys == users.Keys
      && r.users[email] == users[email].(role := VERIFIED,
                                         profile := Some(NewProfileRow(users[email].userId, body, birthday, today)))
      && (forall k :: k in users && k != email ==> r.users[k] == users[k])
      && r.body.Some?
      && (forall e :: e in r.body.value ==> e.1 != Null)
  {
    if email !in users then
      Answer(NotFound, users, None)
    else if users[email].profile.Some? then
      Answer(ServerError, users, None)
    else
      var user := users[email];
      var row := NewProfileRow(user.userId, body, birthday, today);
      var updated := user.(role := VERIFIED, profile := Some(row));
      var response := row + [("role", Text(RoleName(updated.role))), ("email", Text(updated.email))];
      Answer(Ok, users[email := updated], Some(RemoveNullFields(response)))
  }

  lemma ProfileColumnNames()
    ensures Distinct(ProfileFields) && Distinct(ProfileColumns)
    ensures "dob" in ProfileFields && "age" !in ProfileFields && "userId" !in ProfileFields
    ensures forall k :: k in ProfileColumns <==> k in ProfileFields || k == "age" || k == "userId"
    ensures "role" !in ProfileColumns && "email" !in ProfileColumns
  {
    ProfileFieldsDistinct();
    DistinctAppend(ProfileFields, ["age", "userId"]);
  }

  /** The twelve destructured names are pairwise different. */
  lemma ProfileFieldsDistinct()
    ensures Distinct(ProfileFields)
  {
  }

  /** The create's data: each body field, then `dob` overwritten in place
      by the parsed birthday, then `age` and `userId` added. */
  lemma {:induction false} CreateDataColumns(fields: seq<string>, body: Entries, birthday: Date, today: Date,
                                             userId: string, k: string)
    requires Distinct(fields) && "dob" in fields && "age" !in fields && "userId" !in fields
    ensures UniqueKeys(CreateData(fields, body, birthday, today, userId))
    ensures HasKey(CreateData(fields, body, birthday, today, userId), k) <==> k in fields || k == "age" || k == "userId"
    ensures Get(CreateData(fields, body, birthday, today, userId), k) ==
      if k == "dob" then When(birthday)
      else if k == "age" then Number(CalculateAge(today, birthday))
      else if k == "userId" then Text(userId)
      else if k in fields then Get(body, k)
      else Undefined
  {
    var base := Fields(fields, Field(body));
    GetFields(fields, Field(body), k);
    GetFields(fields, Field(body), "dob");
    GetFields(fields, Field(body), "age");
    GetFields(fields, Field(body), "userId");
    var d1 := Set(base, "dob", When(birthday));
    var d2 := Set(d1, "age", Number(CalculateAge(today, birthday)));
    SetKeepsUniqueKeys(base, "dob", When(birthday));
    SetKeepsUniqueKeys(d1, "age", Number(CalculateAge(today, birthday)));
    SetKeepsUniqueKeys(d2, "userId", Text(userId));
    SetReads(base, "dob", When(birthday));
    SetKeys(base, "dob", When(birthday));
    SetReads(d1, "age", Number(CalculateAge(today, birthday)));
    SetKeys(d1, "age", Number(CalculateAge(today, birthday)));
    SetReads(d2, "userId", Text(userId));
    SetKeys(d2, "userId", Text(userId));
  }

  /** The row a create stores: a column reads as the data's value when the
      data gives one and as `null` otherwise. */
  lemma {:induction false} CreatedRowColumns(columns: seq<string>, data: Entries, k: string)
    requires Distinct(columns) && UniqueKeys(data)
    requires forall j :: HasKey(data, j) ==> j in columns
    ensures UniqueKeys(CreatedRow(columns, data))
    ensures HasKey(CreatedRow(columns, data), k) <==> k in columns
    ensures Get(CreatedRow(columns, data), k) ==
      if Get(data, k) != Undefined then Get(data, k) else if k in columns then Null else Undefined
  {
    var blank := Fields(columns, _ => Null);
    GetFields(columns, _ => Null, k);
    GetWritten(blank, data, k);
    WrittenKeys(blank, data);
    forall j | HasKey(blank, j) || HasKey(data, j) ensures j in columns {
      GetFields(columns, _ => Null, j);
    }
    RowKeysUnique(blank, data);
  }

  /** Writing into a row whose keys are unique keeps them unique. */
  lemma {:induction false} RowKeysUnique(row: Entries, data: Entries)
    requires UniqueKeys(row)
    ensures UniqueKeys(Written(row, data))
    decreases |data|
  {
    if data != [] {
      var next := if data[0].1 == Undefined then row else Set(row, data[0].0, data[0].1);
      if data[0].1 != Undefined {
        SetKeepsUniqueKeys(row, data[0].0, data[0].1);
      }
      RowKeysUnique(next, data[1..]);
    }
  }

  /** The create's answer, field by field: a body field given a value is
      echoed, a missing or `null` one is left out, `dob` and `age` are the
      parsed birthday and its age, and the role reads VERIFIED. */
  lemma ProfileCreateResponse(users: map<string, User>, email: string, body: Entries, birthday: Date,
                              today: Date, k: string)
    requires email in users && users[email].profile.None?
    ensures var b := ProfileCreate(users, email, body, birthday, today).body.value;
      && Get(b, "dob") == When(birthday)
      && Get(b, "age") == Number(CalculateAge(today, birthday))
      && Get(b, "role") == Text("VERIFIED")
      && Get(b, "email") == Text(users[email].email)
      && (k in ProfileFields && k != "dob" ==> Get(b, k) == if Unset(Get(body, k)) then Undefined else Get(body, k))
  {
    ProfileCreateBody(users, email, body, birthday, today);
    ProfileColumnNames();
    CreatedResponse(ProfileFields, ProfileColumns, users[email], body, birthday, today, k);
  }

  /** The create's answer is the stored row followed by the role and the
      email, with its null entries removed. */
  lemma ProfileCreateBody(users: map<string, User>, email: string, body: Entries, birthday: Date, today: Date)
    requires email in users && users[email].profile.None?
    ensures ProfileCreate(users, email, body, birthday, today).body.value ==
      RemoveNullFields(NewProfileRow(users[email].userId, body, birthday, today)
                       + [("role", Text("VERIFIED")), ("email", Text(users[email].email))])
  {
  }

  /** `ProfileCreateResponse` for any field list with the shape of the
      profile's. */
  lemma CreatedResponse(fields: seq<string>, columns: seq<string>, user: User, body: Entries, birthday: Date,
                        today: Date, k: string)
    requires Distinct(fields) && Distinct(columns)
    requires "dob" in fields && "age" !in fields && "userId" !in fields
    requires forall j :: j in columns <==> j in fields || j == "age" || j == "userId"
    requires "role" !in columns && "email" !in columns
    ensures var b := RemoveNullFields(CreatedRow(columns, CreateData(fields, body, birthday, today, user.userId))
                                      + [("role", Text("VERIFIED")), ("email", Text(user.email))]);
      && Get(b, "dob") == When(birthday)
      && Get(b, "age") == Number(CalculateAge(today, birthday))
      && Get(b, "role") == Text("VERIFIED")
      && Get(b, "email") == Text(user.email)
      && (k in fields && k != "dob" ==> Get(b, k) == if Unset(Get(body, k)) then Undefined else Get(body, k))
  {
    var data := CreateData(fields, body, birthday, today, user.userId);
    var row := CreatedRow(columns, data);
    var tail := [("role", Text("VERIFIED")), ("email", Text(user.email))];
    forall j ensures HasKey(data, j) ==> j in columns {
      CreateDataColumns(fields, body, birthday, today, user.userId, j);
    }
    CreateDataColumns(fields, body, birthday, today, user.userId, k);
    CreatedRowColumns(columns, data, k);
    CreateDataColumns(fields, body, birthday, today, user.userId, "dob");
    CreatedRowColumns(columns, data, "dob");
    CreateDataColumns(fields, body, birthday, today, user.userId, "age");
    CreatedRowColumns(columns, data, "age");
    CreatedRowColumns(columns, data, "role");
    CreatedRowColumns(columns, data, "email");
    ResponseFields(row, tail, k);
    ResponseFields(row, tail, "dob");
    ResponseFields(row, tail, "age");
    ResponseFields(row, tail, "role");
    ResponseFields(row, tail, "email");
  }

  /** Reading the filtered concatenation of a row and the role and email
      entries. */
  lemma ResponseFields(row: Entries, tail: Entries, k: string)
    requires UniqueKeys(row) && |tail| == 2 && tail[0].0 == "role" && tail[1].0 == "email"
    requires !HasKey(row, "role") && !HasKey(row, "email")
    ensures var v := if HasKey(row, k) then Get(row, k) else Get(tail, k);
      Get(RemoveNullFields(row + tail), k) == if v == Null then Undefined else v
  {
    assert UniqueKeys(tail);
    UniqueKeysAppend(row, tail);
    GetAppend(row, tail, k);
    GetRemoveNullFields(row + tail, k);
  }

  /** The `updateData` of the profile patch: the body's `fields`, and, when
      the body's `dob` is truthy, `dob` replaced in place by the parsed
      birthday and `age` added after it. */
  function UpdateData(fields: seq<string>, body: Entries, birthday: Date, today: Date): Entries {
    var data := Fields(fields, Field(body));
    if Truthy(Get(body, "dob")) then
      Set(Set(data, "dob", When(birthday)), "age", Number(CalculateAge(today, birthday)))
    else data
  }

  /** PATCH `/:email/profile` (any signed-in caller): 404 for an unknown
      email and for a user without a profile; otherwise the profile row
      becomes the row written with the null-stripped update data, and only
      that user's profile changes. */
  function ProfilePatch(users: map<string, User>, email: string, body: Entries, birthday: Date,
                        today: Date): (r: Answer)
    ensures r.status == NotFound <==> email !in users || users[email].profile.None?
    ensures r.status == Ok <==> email in users && users[email].profile.Some?
    ensures r.status in {NotFound, Ok}
    ensures r.status != Ok ==> r.users == users && r.body.None?
    ensures r.status == Ok ==>
      && r.users.Keys == users.Keys
      && r.body.Some?
      && r.users[email] == users[email].(profile := r.body)
      && (forall k :: k in users && k != email ==> r.users[k] == users[k])
  {
    if email !in users || users[email].profile.None? then
      Answer(NotFound, users, None)
    else
      var user := users[email];
      var row := Written(user.profile.value, RemoveNullFields(UpdateData(ProfileFields, body, birthday, today)));
      Answer(Ok, users[email := user.(profile := Some(row))], Some(row))
  }

  /** The profile after a patch, column by column: a truthy `dob` sets `dob`
      and `age` from the parsed birthday; any other body field that is
      neither `null` nor `undefined` is written as given (a falsy `dob`
      such as `""` included); every other column keeps its value. */
  lemma ProfilePatchColumns(users: map<string, User>, email: string, body: Entries, birthday: Date,
                            today: Date, k: string)
    requires email in users && users[email].profile.Some?
    ensures var before := users[email].profile.value;
      var row := ProfilePatch(users, email, body, birthday, today).body.value;
      Get(row, k) ==
        if Truthy(Get(body, "dob")) && k == "dob" then When(birthday)
        else if Truthy(Get(body, "dob")) && k == "age" then Number(CalculateAge(today, birthday))
        else if k in ProfileFields && !Unset(Get(body, k)) then Get(body, k)
        else Get(before, k)
  {
    ProfileColumnNames();
    PatchedColumns(ProfileFields, users[email].profile.value, body, birthday, today, k);
  }

  /** `ProfilePatchColumns` for any field list with the shape of the
      profile's. */
  lemma {:induction false} PatchedColumns(fields: seq<string>, row: Entries, body: Entries, birthday: Date,
                                          today: Date, k: string)
    requires Distinct(fields) && "dob" in fields && "age" !in fields
    ensures Get(Written(row, RemoveNullFields(UpdateData(fields, body, birthday, today))), k) ==
      if Truthy(Get(body, "dob")) && k == "dob" then When(birthday)
      else if Truthy(Get(body, "dob")) && k == "age" then Number(CalculateAge(today, birthday))
      else if k in fields && !Unset(Get(body, k)) then Get(body, k)
      else Get(row, k)
  {
    var base := Fields(fields, Field(body));
    var data := UpdateData(fields, body, birthday, today);
    GetFields(fields, Field(body), k);
    GetFields(fields, Field(body), "dob");
    GetFields(fields, Field(body), "age");
    if Truthy(Get(body, "dob")) {
      var d1 := Set(base, "dob", When(birthday));
      SetKeepsUniqueKeys(base, "dob", When(birthday));
      SetKeepsUniqueKeys(d1, "age", Number(CalculateAge(today, birthday)));
      SetReads(base, "dob", When(birthday));
      SetKeys(base, "dob", When(birthday));
      SetReads(d1, "age", Number(CalculateAge(today, birthday)));
      SetKeys(d1, "age", Number(CalculateAge(today, birthday)));
    }
    RemoveNullFieldsKeepsUniqueKeys(data);
    GetRemoveNullFields(data, k);
    GetWritten(row, RemoveNullFields(data), k);
  }

  /** What GET `/:email` answers: the user with the stored profile stripped
      of its null entries, or no profile. */
  datatype UserView = UserView(userId: string, email: string, role: Role, userProfile: Option<Entries>)

  /** GET `/:email` (any signed-in caller): 404 for an unknown email;
      otherwise the user, with the profile's null entries removed, or no
      profile when the user has none. */
  function GetByEmail(users: map<string, User>, email: string): (r: Reply<UserView>)
    ensures r.status == NotFound <==> email !in users
    ensures r.status in {NotFound, Ok}
    ensures r.status == NotFound ==> r.body.None?
    ensures r.status == Ok ==>
      && r.body.Some?
      && var u := users[email];
      && var v := r.body.value;
      && v.userId == u.userId && v.email == u.email && v.role == u.role
      && (v.userProfile.None? <==> u.profile.None?)
      && (v.userProfile.Some? ==> forall e :: e in v.userProfile.value <==> e in u.profile.value && e.1 != Null)
  {
    if email !in users then Reply(NotFound, None)
    else
      var u := users[email];
      var profile := if u.profile.Some? then Some(RemoveNullFields(u.profile.value)) else None;
      Reply(Ok, Some(UserView(u.userId, u.email, u.role, profile)))
  }

  /** Some user has the id. */
  predicate HasUserId(users: map<string, User>, userId: string) {
    exists e :: e in users && users[e].userId == userId
  }

  /** The table with the role of the user with id `userId` set to `role`. */
  function WithRole(users: map<string, User>, userId: string, role: Role): map<string, User> {
    map e | e in users :: if users[e].userId == userId then users[e].(role := role) else users[e]
  }

  /** PATCH `/:userId/promote` (dist only): ADMIN callers only; the target's
      role becomes ADMIN; an unknown id is a store error. */
  function Promote(caller: Principal, users: map<string, User>, userId: string): (r: Write<map<string, User>>)
    ensures r.status == Forbidden <==> caller.role != ADMIN
    ensures r.status == Ok <==> caller.role == ADMIN && HasUserId(users, userId)
    ensures r.status in {Forbidden, Ok, ServerError}
    ensures r.status != Ok ==> r.table == users
    ensures r.status == Ok ==>
      && r.table.Keys == users.Keys
      && forall e :: e in users ==>
           r.table[e] == if users[e].userId == userId then users[e].(role := ADMIN) else users[e]
  {
    if !Access.Permits(Access.DistGate(Access.UserPromote), caller.role) then
      Write(Forbidden, users)
    else if !HasUserId(users, userId) then
      Write(ServerError, users)
    else
      Write(Ok, WithRole(users, userId, ADMIN))
  }

  /** PATCH `/:userId/demote` (dist only): ADMIN callers only; the target's
      role becomes VERIFIED, whatever it was; an unknown id is a store
      error. */
  function Demote(caller: Principal, users: map<string, User>, userId: string): (r: Write<map<string, User>>)
    ensures r.status == Forbidden <==> caller.role != ADMIN
    ensures r.status == Ok <==> caller.role == ADMIN && HasUserId(users, userId)
    ensures r.status in {Forbidden, Ok, ServerError}
    ensures r.status != Ok ==> r.table == users
    ensures r.status == Ok ==>
      && r.table.Keys == users.Keys
      && forall e :: e in users ==>
           r.table[e] == if users[e].userId == userId then users[e].(role := VERIFIED) else users[e]
  {
    if !Access.Permits(Access.DistGate(Access.UserDemote), caller.role) then
      Write(Forbidden, users)
    else if !HasUserId(users, userId) then
      Write(ServerError, users)
    else
      Write(Ok, WithRole(users, userId, VERIFIED))
  }

  /** Demotion is not the inverse of promotion: a BASIC user promoted and
      then demoted ends VERIFIED, the role a profile create also gives. */
  lemma DemoteAfterPromote(caller: Principal, users: map<string, User>, email: string)
    requires caller.role == ADMIN && email in users && users[email].role == BASIC
    ensures var id := users[email].userId;
      var p := Promote(caller, users, id).table;
      Demote(caller, p, id).table[email].role == VERIFIED
  {
    var id := users[email].userId;
    var p := Promote(caller, users, id).table;
    assert email in p && p[email].userId == id;
  }
}
