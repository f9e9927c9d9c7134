/**
  The record shapes the generator builds: the registration request sent to
  (or turned into a row for) the authentication service, the account row of
  its user table, and the profile sent to the user service.
 */
module Models {
  import opened Wrappers

  /** A registration request; optional fields are the program's nullable strings. */
  datatype RegisterDto = RegisterDto(
    username: string,
    email: string,
    password: string,
    confirmPassword: string,
    phoneNumber: Option<string>,
    profilePicture: Option<string>)
  {
    /** The invariant every construction path keeps: the two passwords agree. */
    predicate PasswordsAgree() {
      password == confirmPassword
    }
  }

  /** A point in time; clocks are outside the model and only hand these in. */
  datatype Instant = Instant(ticks: int)

  /** A row of the authentication service's user table. */
  datatype AccountRow = AccountRow(
    userName: string,
    normalizedUserName: string,
    email: string,
    normalizedEmail: string,
    emailConfirmed: bool,
    passwordHash: string,
    securityStamp: string,
    concurrencyStamp: string,
    phoneNumber: Option<string>,
    phoneNumberConfirmed: bool,
    twoFactorEnabled: bool,
    lockoutEnd: Option<Instant>,
    lockoutEnabled: bool,
    accessFailedCount: int,
    dateOfBirth: Option<Instant>,
    bio: string,
    profilePicture: string,
    gender: string,
    location: string,
    interests: string,
    lastActive: Option<Instant>)

  /** The body of the profile-creation request to the user service. */
  datatype ProfileRequest = ProfileRequest(
    name: string,
    bio: string,
    profilePictureUrl: Option<string>,
    preferences: string)

  /** The filler fields the random faker draws for a row. */
  datatype Filler = Filler(
    dateOfBirth: Instant, bio: string, gender: string, location: string, interests: string, lastActive: Instant)

  /** One draw of the random-user faker. */
  datatype FakeUser = FakeUser(userName: string, email: string, phone: string, filler: Filler)
}
