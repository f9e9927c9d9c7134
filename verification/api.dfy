/**
  The API path: for each record, register with the authentication service,
  then (when profile seeding is on) log in and post a profile to the user
  service. The services are an oracle: the response to the call a record makes
  on an endpoint is given, and each loop yields the trace of calls it makes.
 */
module Api {
  import opened Wrappers
  import opened Models
  import opened Records

  datatype Endpoint = RegisterEndpoint | LoginEndpoint | ProfileEndpoint

  /**
    What one HTTP call came back with: an exception (connection failure, or a
    body that could not be read), or a status and, for the login call, the
    response read as a JSON object (`None` for a JSON `null`; a key mapped to
    `None` is a value whose text is null).
   */
  datatype HttpResult = Threw | Answered(success: bool, body: Option<map<string, Option<string>>>)

  /** The service oracle: the result of record `i`'s call on an endpoint. */
  type Responder = (nat, Endpoint) -> HttpResult

  /** The base addresses of the two services. */
  datatype Services = Services(authUrl: string, userServiceUrl: string)

  /** One HTTP request the generator issues. */
  datatype Call =
    | Register(url: string, dto: RegisterDto)
    | Login(url: string, email: string, password: string)
    | PostProfile(url: string, token: string, profile: ProfileRequest)

  function RegisterUrl(svc: Services): string { svc.authUrl + "/api/auth/register" }

  function LoginUrl(svc: Services): string { svc.authUrl + "/api/Auth/login" }

  function ProfileUrl(svc: Services): string { svc.userServiceUrl + "/api/UserProfiles" }

  const ProfileBio: string := "Test user bio"

  const ProfilePreferences: string := "Testing, Automation"

  /** The password every randomly generated API user registers with. */
  const RandomApiPassword: string := "P@$$wOrd123!"

  /**
    The profile posted for a registered user: named after the username, with
    the request's picture, and the fixed test bio and preferences. Built from
    an explicit user's defaulted request, it always carries a picture.
   */
  function ProfileFor(d: RegisterDto): (p: ProfileRequest)
    ensures p.name == d.username && p.profilePictureUrl == d.profilePicture
    ensures p.bio == ProfileBio && p.preferences == ProfilePreferences
    ensures !IsNullOrWhiteSpace(d.profilePicture) ==> p.profilePictureUrl.Some?
  {
    ProfileRequest(d.username, ProfileBio, d.profilePicture, ProfilePreferences)
  }

  /** The request the random API faker builds from one draw. */
  function RandomDto(f: FakeUser): (d: RegisterDto)
    ensures d.PasswordsAgree() && d.password == RandomApiPassword
    ensures d.username == f.userName && d.email == f.email
    ensures d.profilePicture == Some(AvatarUrl(f.email))
  {
    RegisterDto(f.userName, f.email, RandomApiPassword, RandomApiPassword, Some(f.phone), Some(AvatarUrl(f.email)))
  }

  predicate Succeeded(r: HttpResult) {
    r.Answered? && r.success
  }

  /**
    The token the login helper returns for a login response: present only for
    a success status whose JSON object holds a non-null `token` value.
   */
  function TokenOf(r: HttpResult): (t: Option<string>)
    ensures t.Some? <==>
      Succeeded(r) && r.body.Some? && "token" in r.body.value && r.body.value["token"].Some?
    ensures t.Some? ==> t.value == r.body.value["token"].value
  {
    if !Succeeded(r) then None
    else
      match r.body
      case None => None
      case Some(json) => if "token" in json then json["token"] else None
  }

  // ---------------------------------------------------------------------------
  // Traces
  // ---------------------------------------------------------------------------

  /** The requests of the registration calls of a trace, in order. */
  function Registrations(calls: seq<Call>): seq<RegisterDto>
    decreases |calls|
  {
    if |calls| == 0 then []
    else (if calls[0].Register? then [calls[0].dto] else []) + Registrations(calls[1..])
  }

  /** The number of login calls of a trace. */
  function LoginCount(calls: seq<Call>): nat
    decreases |calls|
  {
    if |calls| == 0 then 0 else (if calls[0].Login? then 1 else 0) + LoginCount(calls[1..])
  }

  /** Registrations and logins of a concatenation are those of the parts. */
  lemma RegistrationsAppend(a: seq<Call>, b: seq<Call>)
    ensures Registrations(a + b) == Registrations(a) + Registrations(b)
    ensures LoginCount(a + b) == LoginCount(a) + LoginCount(b)
  {
    RegistrationsOfAppend(a, b);
    LoginCountOfAppend(a, b);
  }

  lemma {:induction false} RegistrationsOfAppend(a: seq<Call>, b: seq<Call>)
    ensures Registrations(a + b) == Registrations(a) + Registrations(b)
    decreases |a|
  {
    if |a| == 0 {
      assert a + b == b;
    } else {
      var head := if a[0].Register? then [a[0].dto] else [];
      assert (a + b)[0] == a[0];
      assert (a + b)[1..] == a[1..] + b;
      RegistrationsOfAppend(a[1..], b);
      calc {
        Registrations(a + b);
        head + Registrations(a[1..] + b);
        head + (Registrations(a[1..]) + Registrations(b));
        (head + Registrations(a[1..])) + Registrations(b);
      }
    }
  }

  lemma {:induction false} LoginCountOfAppend(a: seq<Call>, b: seq<Call>)
    ensures LoginCount(a + b) == LoginCount(a) + LoginCount(b)
    decreases |a|
  {
    if |a| == 0 {
      assert a + b == b;
    } else {
      assert (a + b)[0] == a[0];
      assert (a + b)[1..] == a[1..] + b;
      LoginCountOfAppend(a[1..], b);
    }
  }

  /** A trace without registrations (logins) registers nothing (logs in zero times). */
  lemma {:induction false} NoneOfKind(calls: seq<Call>)
    ensures (forall j :: 0 <= j < |calls| ==> !calls[j].Register?) ==> Registrations(calls) == []
    ensures (forall j :: 0 <= j < |calls| ==> !calls[j].Login?) ==> LoginCount(calls) == 0
    decreases |calls|
  {
    if |calls| > 0 {
      NoneOfKind(calls[1..]);
      assert forall j :: 1 <= j < |calls| ==> calls[1..][j - 1] == calls[j];
    }
  }

  /**
    The order the pipeline promises: a trace starts with a registration, every
    login immediately follows the registration of the same credentials, and
    every profile post immediately follows a login.
   */
  ghost predicate PipelineOrdered(calls: seq<Call>) {
    && (|calls| > 0 ==> calls[0].Register?)
    && (forall j :: 0 < j < |calls| && calls[j].Login? ==>
          calls[j - 1].Register? && calls[j - 1].dto.email == calls[j].email
          && calls[j - 1].dto.password == calls[j].password)
    && (forall j :: 0 < j < |calls| && calls[j].PostProfile? ==> calls[j - 1].Login?)
  }

  lemma PipelineOrderedAppend(a: seq<Call>, b: seq<Call>)
    requires PipelineOrdered(a) && PipelineOrdered(b)
    ensures PipelineOrdered(a + b)
  {
    var c := a + b;
    forall j | 0 < j < |c| && c[j].Login?
      ensures c[j - 1].Register? && c[j - 1].dto.email == c[j].email && c[j - 1].dto.password == c[j].password
    {
      if j >= |a| && j - 1 >= |a| {
        assert c[j] == b[j - |a|] && c[j - 1] == b[j - 1 - |a|];
      }
    }
  }

  /** True when no call of the trace is a login or a profile post. */
  ghost predicate OnlyRegistrations(calls: seq<Call>) {
    forall j :: 0 <= j < |calls| ==> calls[j].Register?
  }

  // ---------------------------------------------------------------------------
  // The random-user loop
  // ---------------------------------------------------------------------------

  /**
    The calls made for random record `i`: always the registration; the login
    only when seeding is on and the registration succeeded; the profile post
    only when that login produced a token, sent with that token. Exceptions
    are caught for the record, so the loop always moves on.
   */
  function RandomRecordCalls(svc: Services, i: nat, d: RegisterDto, seed: bool, net: Responder): (calls: seq<Call>)
    ensures 1 <= |calls| <= 3 && calls[0] == Register(RegisterUrl(svc), d)
    ensures |calls| >= 2 <==> seed && Succeeded(net(i, RegisterEndpoint))
    ensures |calls| >= 2 ==> calls[1] == Login(LoginUrl(svc), d.email, d.password)
    ensures |calls| == 3 <==>
      seed && Succeeded(net(i, RegisterEndpoint)) && TokenOf(net(i, LoginEndpoint)).Some?
    ensures |calls| == 3 ==>
      calls[2] == PostProfile(ProfileUrl(svc), TokenOf(net(i, LoginEndpoint)).value, ProfileFor(d))
  {
    var register := [Register(RegisterUrl(svc), d)];
    if !Succeeded(net(i, RegisterEndpoint)) || !seed then register
    else
      var login := register + [Login(LoginUrl(svc), d.email, d.password)];
      match TokenOf(net(i, LoginEndpoint))
      case None => login
      case Some(token) => login + [PostProfile(ProfileUrl(svc), token, ProfileFor(d))]
  }

  /**
    Records `k` up to `n` of the random loop, each a fresh faker draw: between
    one and three calls per record, the first being draw `k`'s registration.
   */
  function RandomFrom(svc: Services, n: nat, k: nat, seed: bool, draws: nat -> FakeUser, net: Responder)
    : (calls: seq<Call>)
    requires k <= n
    ensures n - k <= |calls| <= 3 * (n - k)
    ensures k < n ==> calls[0] == Register(RegisterUrl(svc), RandomDto(draws(k)))
    decreases n - k
  {
    if k == n then []
    else RandomRecordCalls(svc, k, RandomDto(draws(k)), seed, net) + RandomFrom(svc, n, k + 1, seed, draws, net)
  }

  /**
    The calls of the random API creation of `count` users: none at all unless
    the authentication database is selected, and none for a count below one.
   */
  function CreateUsersViaApi(svc: Services, selectedDb: string, count: int, seed: bool, draws: nat -> FakeUser, net: Responder)
    : (calls: seq<Call>)
    ensures selectedDb != "1" || count <= 0 ==> calls == []
  {
    if selectedDb != "1" || count <= 0 then [] else RandomFrom(svc, count, 0, seed, draws, net)
  }

  /** The per-record facts the loop lemmas build on. */
  lemma RandomRecordFacts(svc: Services, i: nat, d: RegisterDto, seed: bool, net: Responder)
    ensures var head := RandomRecordCalls(svc, i, d, seed, net);
      && Registrations(head) == [d]
      && LoginCount(head) <= 1
      && PipelineOrdered(head)
      && (!seed ==> OnlyRegistrations(head))
  {
    var head := RandomRecordCalls(svc, i, d, seed, net);
    RegistrationsOfTail(head);
    LoginCountOfRecord(head);
  }

  lemma {:induction false} RandomFromRegistrations(svc: Services, n: nat, k: nat, seed: bool, draws: nat -> FakeUser, net: Responder)
    requires k <= n
    ensures Registrations(RandomFrom(svc, n, k, seed, draws, net))
         == seq(n - k, j requires 0 <= j < n - k => RandomDto(draws(k + j)))
    decreases n - k
  {
    if k < n {
      var head := RandomRecordCalls(svc, k, RandomDto(draws(k)), seed, net);
      var rest := RandomFrom(svc, n, k + 1, seed, draws, net);
      RandomFromRegistrations(svc, n, k + 1, seed, draws, net);
      RegistrationsAppend(head, rest);
      RandomRecordFacts(svc, k, RandomDto(draws(k)), seed, net);
    }
  }

  lemma {:induction false} RandomFromOrdered(svc: Services, n: nat, k: nat, seed: bool, draws: nat -> FakeUser, net: Responder)
    requires k <= n
    ensures PipelineOrdered(RandomFrom(svc, n, k, seed, draws, net))
    decreases n - k
  {
    if k < n {
      var head := RandomRecordCalls(svc, k, RandomDto(draws(k)), seed, net);
      var rest := RandomFrom(svc, n, k + 1, seed, draws, net);
      RandomFromOrdered(svc, n, k + 1, seed, draws, net);
      RandomRecordFacts(svc, k, RandomDto(draws(k)), seed, net);
      PipelineOrderedAppend(head, rest);
    }
  }

  lemma {:induction false} RandomFromLogins(svc: Services, n: nat, k: nat, seed: bool, draws: nat -> FakeUser, net: Responder)
    requires k <= n
    ensures var calls := RandomFrom(svc, n, k, seed, draws, net);
      && (!seed ==> OnlyRegistrations(calls))
      && LoginCount(calls) <= n - k
    decreases n - k
  {
    if k < n {
      var head := RandomRecordCalls(svc, k, RandomDto(draws(k)), seed, net);
      var rest := RandomFrom(svc, n, k + 1, seed, draws, net);
      RandomFromLogins(svc, n, k + 1, seed, draws, net);
      RandomRecordFacts(svc, k, RandomDto(draws(k)), seed, net);
      RegistrationsAppend(head, rest);
      if !seed {
        var all := head + rest;
        forall j | 0 <= j < |all|
          ensures all[j].Register?
        {
          if j >= |head| {
            assert all[j] == rest[j - |head|];
          }
        }
      }
    }
  }

  /** After its leading registration, a record's trace registers nothing. */
  lemma RegistrationsOfTail(head: seq<Call>)
    requires 1 <= |head| <= 3 && head[0].Register?
    requires forall j :: 1 <= j < |head| ==> !head[j].Register?
    ensures Registrations(head) == [head[0].dto]
  {
    NoneOfKind(head[1..]);
  }

  /** A record's trace holds at most one login. */
  lemma LoginCountOfRecord(head: seq<Call>)
    requires 1 <= |head| <= 3 && head[0].Register?
    requires forall j :: 2 <= j < |head| ==> !head[j].Login?
    ensures LoginCount(head) <= 1
  {
    if |head| > 1 {
      NoneOfKind(head[2..]);
      assert head[1..][1..] == head[2..];
    }
  }

  /**
    On the authentication database the random loop registers exactly the
    first `count` faker draws, in draw order, keeps the pipeline order, makes
    no login or profile call without seeding, and at most one login per user.
   */
  lemma RandomApiTrace(svc: Services, count: int, seed: bool, draws: nat -> FakeUser, net: Responder)
    ensures var calls := CreateUsersViaApi(svc, "1", count, seed, draws, net);
      var n := if count < 0 then 0 else count;
      && Registrations(calls) == seq(n, j requires 0 <= j < n => RandomDto(draws(j)))
      && PipelineOrdered(calls)
      && (!seed ==> OnlyRegistrations(calls))
      && LoginCount(calls) <= n
  {
    if count > 0 {
      RandomFromRegistrations(svc, count, 0, seed, draws, net);
      RandomFromOrdered(svc, count, 0, seed, draws, net);
      RandomFromLogins(svc, count, 0, seed, draws, net);
      assert seq(count - 0, j requires 0 <= j < count - 0 => RandomDto(draws(0 + j)))
          == seq(count, j requires 0 <= j < count => RandomDto(draws(j)));
    }
  }

  // ---------------------------------------------------------------------------
  // The explicit-user loop
  // ---------------------------------------------------------------------------

  /** A loop's calls, and whether an exception escaped it (ending the process). */
  datatype ExplicitRun = ExplicitRun(calls: seq<Call>, crashed: bool)

  /**
    True when explicit user `i`'s pipeline throws out of the loop: its login
    throws, or its login gives a token and the profile post then throws.
   */
  ghost predicate RecordThrows(net: Responder, i: nat) {
    net(i, LoginEndpoint).Threw? || (TokenOf(net(i, LoginEndpoint)).Some? && net(i, ProfileEndpoint).Threw?)
  }

  /** `m` is the first user from position `k` on whose pipeline throws. */
  ghost predicate FirstThrow(net: Responder, k: nat, m: nat) {
    k <= m && RecordThrows(net, m) && forall p: nat :: k <= p < m ==> !RecordThrows(net, p)
  }

  /**
    The calls made for explicit user `i`: the registration (with a defaulted
    picture; any failure of it is caught); then, when seeding is on, the login
    whatever the registration's outcome, and the profile post when it gave a
    token. A failure of the login or the profile post is not caught.
   */
  function ExplicitRecordRun(svc: Services, i: nat, user: RegisterDto, seed: bool, net: Responder): (r: ExplicitRun)
    ensures var d := WithDefaultPicture(user);
      && 1 <= |r.calls| <= 3 && r.calls[0] == Register(RegisterUrl(svc), d)
      && (|r.calls| >= 2 <==> seed)
      && (|r.calls| >= 2 ==> r.calls[1] == Login(LoginUrl(svc), d.email, d.password))
      && (|r.calls| == 3 <==> seed && TokenOf(net(i, LoginEndpoint)).Some?)
      && (|r.calls| == 3 ==>
            r.calls[2] == PostProfile(ProfileUrl(svc), TokenOf(net(i, LoginEndpoint)).value, ProfileFor(d)))
    ensures r.crashed <==> seed && RecordThrows(net, i)
  {
    var d := WithDefaultPicture(user);
    var register := [Register(RegisterUrl(svc), d)];
    if !seed then ExplicitRun(register, false)
    else
      var login := register + [Login(LoginUrl(svc), d.email, d.password)];
      var response := net(i, LoginEndpoint);
      if response.Threw? then ExplicitRun(login, true)
      else
        match TokenOf(response)
        case None => ExplicitRun(login, false)
        case Some(token) =>
          ExplicitRun(login + [PostProfile(ProfileUrl(svc), token, ProfileFor(d))], net(i, ProfileEndpoint).Threw?)
  }

  /**
    Explicit users from position `k` on; an escaping exception ends the loop.
    At most three calls per user; the first call registers user `k`, so that
    registration is sent even when the loop crashes; only a seeding run over
    a non-empty rest can crash.
   */
  function ExplicitFrom(svc: Services, users: seq<RegisterDto>, k: nat, seed: bool, net: Responder): (run: ExplicitRun)
    requires k <= |users|
    ensures |run.calls| <= 3 * (|users| - k)
    ensures k < |users| ==>
      |run.calls| >= 1 && run.calls[0] == Register(RegisterUrl(svc), WithDefaultPicture(users[k]))
    ensures run.crashed ==> seed && k < |users|
    decreases |users| - k
  {
    if k == |users| then ExplicitRun([], false)
    else
      var r := ExplicitRecordRun(svc, k, users[k], seed, net);
      if r.crashed then r
      else
        var rest := ExplicitFrom(svc, users, k + 1, seed, net);
        ExplicitRun(r.calls + rest.calls, rest.crashed)
  }

  /**
    The explicit-user API loop over the whole list: the first user's
    registration is always sent, and an empty list or a run without seeding
    never crashes.
   */
  function CreateExplicitUsersViaApi(svc: Services, users: seq<RegisterDto>, seed: bool, net: Responder): (run: ExplicitRun)
    ensures |run.calls| <= 3 * |users|
    ensures |users| > 0 ==>
      |run.calls| >= 1 && run.calls[0] == Register(RegisterUrl(svc), WithDefaultPicture(users[0]))
    ensures run.crashed ==> seed && |users| > 0
  {
    ExplicitFrom(svc, users, 0, seed, net)
  }

  /** The requests the explicit loop sends for `users[k..]`: each with its picture defaulted. */
  function Prepared(users: seq<RegisterDto>, k: nat): (ds: seq<RegisterDto>)
    requires k <= |users|
    ensures |ds| == |users| - k
    ensures forall j :: 0 <= j < |ds| ==> ds[j] == WithDefaultPicture(users[k + j])
  {
    seq(|users| - k, j requires 0 <= j < |users| - k => WithDefaultPicture(users[k + j]))
  }

  /** True when no login or profile post of the oracle throws. */
  ghost predicate NoLoginOrProfileThrows(net: Responder) {
    forall i: nat :: !net(i, LoginEndpoint).Threw? && !net(i, ProfileEndpoint).Threw?
  }

  /** The per-record facts of the explicit loop. */
  lemma ExplicitRecordFacts(svc: Services, i: nat, user: RegisterDto, seed: bool, net: Responder)
    ensures var r := ExplicitRecordRun(svc, i, user, seed, net);
      && Registrations(r.calls) == [WithDefaultPicture(user)]
      && (seed ==> LoginCount(r.calls) == 1)
      && (!seed ==> OnlyRegistrations(r.calls) && !r.crashed)
      && PipelineOrdered(r.calls)
  {
    var r := ExplicitRecordRun(svc, i, user, seed, net);
    RegistrationsOfTail(r.calls);
    LoginCountOfRecord(r.calls);
    if seed {
      assert r.calls[1..][0].Login?;
      NoneOfKind(r.calls[2..]);
      assert r.calls[1..][1..] == r.calls[2..];
    }
  }

  /** The explicit loop registers a prefix of the prepared users, all of them unless it crashed. */
  lemma {:induction false} ExplicitFromRegistrations(svc: Services, users: seq<RegisterDto>, k: nat, seed: bool, net: Responder)
    requires k <= |users|
    ensures var run := ExplicitFrom(svc, users, k, seed, net);
      && Registrations(run.calls) <= Prepared(users, k)
      && (!run.crashed ==> Registrations(run.calls) == Prepared(users, k))
    decreases |users| - k
  {
    if k < |users| {
      var r := ExplicitRecordRun(svc, k, users[k], seed, net);
      ExplicitRecordFacts(svc, k, users[k], seed, net);
      assert Prepared(users, k) == [WithDefaultPicture(users[k])] + Prepared(users, k + 1);
      if !r.crashed {
        var rest := ExplicitFrom(svc, users, k + 1, seed, net);
        ExplicitFromRegistrations(svc, users, k + 1, seed, net);
        RegistrationsAppend(r.calls, rest.calls);
      }
    }
  }

  /** The explicit loop only crashes with seeding on, and only when a login or profile post throws. */
  lemma {:induction false} ExplicitFromCrashes(svc: Services, users: seq<RegisterDto>, k: nat, seed: bool, net: Responder)
    requires k <= |users|
    ensures var run := ExplicitFrom(svc, users, k, seed, net);
      && (run.crashed ==> seed)
      && (NoLoginOrProfileThrows(net) ==> !run.crashed)
    decreases |users| - k
  {
    if k < |users| {
      var r := ExplicitRecordRun(svc, k, users[k], seed, net);
      if r.crashed {
        assert net(k, LoginEndpoint).Threw? || net(k, ProfileEndpoint).Threw?;
      } else {
        ExplicitFromCrashes(svc, users, k + 1, seed, net);
      }
    }
  }

  /**
    The explicit loop crashes exactly when seeding is on and some user's
    pipeline, from position `k` on, throws.
   */
  lemma {:induction false} ExplicitFromCrashIff(svc: Services, users: seq<RegisterDto>, k: nat, seed: bool, net: Responder)
    requires k <= |users|
    ensures ExplicitFrom(svc, users, k, seed, net).crashed <==>
      seed && exists m :: k <= m < |users| && RecordThrows(net, m)
    decreases |users| - k
  {
    if k < |users| {
      var r := ExplicitRecordRun(svc, k, users[k], seed, net);
      if r.crashed {
        assert k <= k < |users| && RecordThrows(net, k);
      } else {
        ExplicitFromCrashIff(svc, users, k + 1, seed, net);
        if exists m :: k <= m < |users| && RecordThrows(net, m) {
          var m :| k <= m < |users| && RecordThrows(net, m);
          assert seed ==> k + 1 <= m;
        }
      }
    }
  }

  /**
    A crashing explicit loop stops at the first user whose pipeline throws:
    the users registered are those up to and including it, and no later one.
   */
  lemma {:induction false} ExplicitFromStops(svc: Services, users: seq<RegisterDto>, k: nat, seed: bool, net: Responder, m: nat)
    requires seed && k <= m < |users| && FirstThrow(net, k, m)
    ensures Registrations(ExplicitFrom(svc, users, k, seed, net).calls) == Prepared(users, k)[..m - k + 1]
    decreases |users| - k
  {
    var r := ExplicitRecordRun(svc, k, users[k], seed, net);
    ExplicitRecordFacts(svc, k, users[k], seed, net);
    PreparedPrefixCons(users, k, m - k);
    if m > k {
      assert !r.crashed;
      var rest := ExplicitFrom(svc, users, k + 1, seed, net);
      ExplicitFromStops(svc, users, k + 1, seed, net, m);
      RegistrationsAppend(r.calls, rest.calls);
    }
  }

  /** A prefix of the prepared users starts with the first of them. */
  lemma PreparedPrefixCons(users: seq<RegisterDto>, k: nat, n: nat)
    requires k + n < |users|
    ensures Prepared(users, k)[..n + 1] == [WithDefaultPicture(users[k])] + Prepared(users, k + 1)[..n]
  {
  }

  /** The explicit loop logs in once per registration with seeding, never without, in pipeline order. */
  lemma {:induction false} ExplicitFromShape(svc: Services, users: seq<RegisterDto>, k: nat, seed: bool, net: Responder)
    requires k <= |users|
    ensures var run := ExplicitFrom(svc, users, k, seed, net);
      && (seed ==> LoginCount(run.calls) == |Registrations(run.calls)|)
      && (!seed ==> OnlyRegistrations(run.calls))
      && PipelineOrdered(run.calls)
    decreases |users| - k
  {
    if k < |users| {
      var r := ExplicitRecordRun(svc, k, users[k], seed, net);
      ExplicitRecordFacts(svc, k, users[k], seed, net);
      if !r.crashed {
        var rest := ExplicitFrom(svc, users, k + 1, seed, net);
        ExplicitFromShape(svc, users, k + 1, seed, net);
        RegistrationsAppend(r.calls, rest.calls);
        PipelineOrderedAppend(r.calls, rest.calls);
      }
    }
  }

  /**
    The explicit loop registers a prefix of the users, in list order, never
    an empty one when there are users, and all of them unless an exception
    escaped; with seeding on it logs in once per
    registration, whatever the registration's outcome; it ends early exactly
    when seeding is on and some user's login, or profile post after a token,
    throws, and then right after registering the first such user.
   */
  lemma ExplicitApiTrace(svc: Services, users: seq<RegisterDto>, seed: bool, net: Responder)
    ensures var run := CreateExplicitUsersViaApi(svc, users, seed, net);
      var prepared := seq(|users|, j requires 0 <= j < |users| => WithDefaultPicture(users[j]));
      && Registrations(run.calls) <= prepared
      && (|users| > 0 ==> |Registrations(run.calls)| > 0)
      && (!run.crashed ==> Registrations(run.calls) == prepared)
      && (seed ==> LoginCount(run.calls) == |Registrations(run.calls)|)
      && (!seed ==> OnlyRegistrations(run.calls) && !run.crashed)
      && (NoLoginOrProfileThrows(net) ==> !run.crashed)
      && PipelineOrdered(run.calls)
    ensures var run := CreateExplicitUsersViaApi(svc, users, seed, net);
      run.crashed <==> seed && exists m :: 0 <= m < |users| && RecordThrows(net, m)
    ensures var run := CreateExplicitUsersViaApi(svc, users, seed, net);
      var prepared := seq(|users|, j requires 0 <= j < |users| => WithDefaultPicture(users[j]));
      forall m: nat :: seed && m < |users| && FirstThrow(net, 0, m) ==> Registrations(run.calls) == prepared[..m + 1]
  {
    ExplicitFromRegistrations(svc, users, 0, seed, net);
    ExplicitFromCrashes(svc, users, 0, seed, net);
    ExplicitFromShape(svc, users, 0, seed, net);
    ExplicitFromCrashIff(svc, users, 0, seed, net);
    forall m: nat | seed && m < |users| && FirstThrow(net, 0, m) {
      ExplicitFromStops(svc, users, 0, seed, net, m);
    }
    assert Prepared(users, 0) == seq(|users|, j requires 0 <= j < |users| => WithDefaultPicture(users[j]));
  }

  /**
    The two loops differ on a failed registration: with seeding on, the
    explicit loop still logs in with the user's credentials, the random loop
    does not.
   */
  lemma LoginAfterFailedRegistration(svc: Services, i: nat, d: RegisterDto, net: Responder)
    requires !Succeeded(net(i, RegisterEndpoint))
    ensures RandomRecordCalls(svc, i, d, true, net) == [Register(RegisterUrl(svc), d)]
    ensures var e := WithDefaultPicture(d);
      ExplicitRecordRun(svc, i, d, true, net).calls[1] == Login(LoginUrl(svc), e.email, e.password)
  {
  }
}
