/**
  The direct-insert path: registration requests become rows of the
  authentication service's user table, added one by one to a database
  session and committed with a single save.
 */
module Direct {
  import opened Wrappers
  import opened Text
  import opened Models
  import opened Records
  import opened Targets

  /**
    What is drawn afresh for one row: the two GUIDs, as text, and the random
    salt the password hasher mixes into that row's hash.
   */
  datatype Stamps = Stamps(securityGuid: string, concurrencyGuid: string, salt: string)

  /** The current time and the time 25 years earlier, handed in by the caller. */
  datatype Clock = Clock(now: Instant, twentyFiveYearsAgo: Instant)

  /**
    The one-way password hasher, outside the model, as a function of the
    row's salt and the password: hashing the same password for two rows
    gives different hashes when their salts differ.
   */
  type Hasher = (string, string) -> string

  /** The password every randomly generated row is hashed from. */
  const RandomRowPassword: string := "P@$$wOrd"

  /** `key` is `s` normalised for lookup: equal up to case, with no lower-case letter. */
  ghost predicate IsLookupKey(key: string, s: string) {
    EqualIgnoringCase(key, s) && forall k :: 0 <= k < |key| ==> !IsAsciiLower(key[k])
  }

  /** The operations a direct insert performs on the database session. */
  datatype DbOp = AddAccount(row: AccountRow) | AddProfiles(count: nat) | SaveChanges

  /**
    The row made for an explicitly requested user: identity fields copied,
    lookup fields normalised, email and phone confirmed, the password hashed,
    and fixed filler values.
   */
  function ExplicitRow(d: RegisterDto, st: Stamps, hash: Hasher, clock: Clock): (row: AccountRow)
    ensures row.userName == d.username && row.email == d.email && row.phoneNumber == d.phoneNumber
    ensures IsLookupKey(row.normalizedUserName, d.username)
    ensures IsLookupKey(row.normalizedEmail, d.email)
    ensures IsLookupKey(row.securityStamp, st.securityGuid)
    ensures row.emailConfirmed && row.phoneNumberConfirmed
    ensures !row.twoFactorEnabled && !row.lockoutEnabled && row.lockoutEnd.None? && row.accessFailedCount == 0
    ensures row.passwordHash == hash(st.salt, d.password)
    ensures row.profilePicture == AvatarUrl(d.email)
  {
    AccountRow(
      userName := d.username,
      normalizedUserName := Upper(d.username),
      email := d.email,
      normalizedEmail := Upper(d.email),
      emailConfirmed := true,
      passwordHash := hash(st.salt, d.password),
      securityStamp := Upper(st.securityGuid),
      concurrencyStamp := st.concurrencyGuid,
      phoneNumber := d.phoneNumber,
      phoneNumberConfirmed := true,
      twoFactorEnabled := false,
      lockoutEnd := None,
      lockoutEnabled := false,
      accessFailedCount := 0,
      dateOfBirth := Some(clock.twentyFiveYearsAgo),
      bio := "Test user bio",
      profilePicture := AvatarUrl(d.email),
      gender := "Other",
      location := "Test City",
      interests := "Testing",
      lastActive := Some(clock.now))
  }

  /**
    The row the random faker makes: normalised lookup fields, nothing
    confirmed, lockout enabled, and the fixed password hashed.
   */
  function RandomRow(f: FakeUser, st: Stamps, hash: Hasher): (row: AccountRow)
    ensures row.userName == f.userName && row.email == f.email && row.phoneNumber == Some(f.phone)
    ensures IsLookupKey(row.normalizedUserName, f.userName)
    ensures IsLookupKey(row.normalizedEmail, f.email)
    ensures !row.emailConfirmed && !row.phoneNumberConfirmed
    ensures !row.twoFactorEnabled && row.lockoutEnabled && row.lockoutEnd.None? && row.accessFailedCount == 0
    ensures row.passwordHash == hash(st.salt, RandomRowPassword)
    ensures row.profilePicture == AvatarUrl(f.email)
  {
    AccountRow(
      userName := f.userName,
      normalizedUserName := Upper(f.userName),
      email := f.email,
      normalizedEmail := Upper(f.email),
      emailConfirmed := false,
      passwordHash := hash(st.salt, RandomRowPassword),
      securityStamp := Upper(st.securityGuid),
      concurrencyStamp := st.concurrencyGuid,
      phoneNumber := Some(f.phone),
      phoneNumberConfirmed := false,
      twoFactorEnabled := false,
      lockoutEnd := None,
      lockoutEnabled := true,
      accessFailedCount := 0,
      dateOfBirth := Some(f.filler.dateOfBirth),
      bio := f.filler.bio,
      profilePicture := AvatarUrl(f.email),
      gender := f.filler.gender,
      location := f.filler.location,
      interests := f.filler.interests,
      lastActive := Some(f.filler.lastActive))
  }

  /**
    Two explicit users collide on the table's lookup keys exactly when their
    usernames (emails) are equal up to case.
   */
  lemma ExplicitRowLookupKeys(a: RegisterDto, b: RegisterDto, sa: Stamps, sb: Stamps, hash: Hasher, clock: Clock)
    ensures ExplicitRow(a, sa, hash, clock).normalizedUserName == ExplicitRow(b, sb, hash, clock).normalizedUserName
        <==> EqualIgnoringCase(a.username, b.username)
    ensures ExplicitRow(a, sa, hash, clock).normalizedEmail == ExplicitRow(b, sb, hash, clock).normalizedEmail
        <==> EqualIgnoringCase(a.email, b.email)
  {
    UpperIsCaseInsensitiveKey(a.username, b.username);
    UpperIsCaseInsensitiveKey(a.email, b.email);
  }

  /**
    The session operations of an explicit direct insert: exactly one row per
    user, in order, then exactly one save.
   */
  function ExplicitDirectOps(users: seq<RegisterDto>, stamps: nat -> Stamps, hash: Hasher, clock: Clock)
    : (ops: seq<DbOp>)
    ensures |ops| == |users| + 1
    ensures forall j :: 0 <= j < |users| ==> ops[j] == AddAccount(ExplicitRow(users[j], stamps(j), hash, clock))
    ensures ops[|users|] == SaveChanges
    ensures forall j :: 0 <= j < |ops| ==> (ops[j] == SaveChanges <==> j == |users|)
  {
    seq(|users|, j requires 0 <= j < |users| => AddAccount(ExplicitRow(users[j], stamps(j), hash, clock)))
      + [SaveChanges]
  }

  /**
    The session operations of a random direct insert of `count` users: on the
    authentication database, `count` faker rows then one save; on the user
    database, `count` profiles then one save; on any other target, nothing.
   */
  function RandomDirectOps(selectedDb: string, count: nat, draws: nat -> FakeUser, stamps: nat -> Stamps, hash: Hasher)
    : (ops: seq<DbOp>)
    ensures selectedDb == "1" ==>
      && |ops| == count + 1
      && ops[count] == SaveChanges
      && forall j :: 0 <= j < count ==> ops[j] == AddAccount(RandomRow(draws(j), stamps(j), hash))
    ensures selectedDb == "2" ==> ops == [AddProfiles(count), SaveChanges]
    ensures selectedDb != "1" && selectedDb != "2" ==> ops == []
  {
    if selectedDb == "1" then
      seq(count, j requires 0 <= j < count => AddAccount(RandomRow(draws(j), stamps(j), hash))) + [SaveChanges]
    else if selectedDb == "2" then [AddProfiles(count), SaveChanges]
    else []
  }
}
