/**
  A whole run of the program: the entry point's choice between the CI build,
  the interactive menu and batch mode, and the effects of a batch run, with
  everything outside the model (network, database, faker, clock, GUIDs,
  hasher) handed in as a `World`.
 */
module Run {
  import opened Wrappers
  import opened Models
  import opened Records
  import opened Targets
  import opened Direct
  import opened Api
  import opened Batch

  /** One observable effect: an HTTP request or a database-session operation. */
  datatype Effect = Http(call: Call) | Db(op: DbOp)

  /** Everything a batch run consults that the model does not compute. */
  datatype World = World(
    explicitNet: Responder,
    randomNet: Responder,
    draws: nat -> FakeUser,
    explicitStamps: nat -> Stamps,
    randomStamps: nat -> Stamps,
    hash: Hasher,
    clock: Clock,
    explicitSaveOk: bool)

  /** The effects of a run, and whether an exception escaped and ended the process. */
  datatype Outcome = Outcome(effects: seq<Effect>, crashed: bool)

  function HttpEffects(calls: seq<Call>): (es: seq<Effect>)
    ensures |es| == |calls|
    ensures forall j :: 0 <= j < |es| ==> es[j].Http? && es[j].call == calls[j]
  {
    seq(|calls|, j requires 0 <= j < |calls| => Http(calls[j]))
  }

  function DbEffects(ops: seq<DbOp>): (es: seq<Effect>)
    ensures |es| == |ops|
    ensures forall j :: 0 <= j < |es| ==> es[j].Db? && es[j].op == ops[j]
  {
    seq(|ops|, j requires 0 <= j < |ops| => Db(ops[j]))
  }

  /** The HTTP requests among the effects, in order. */
  function CallsOf(es: seq<Effect>): seq<Call>
    decreases |es|
  {
    if |es| == 0 then []
    else (if es[0].Http? then [es[0].call] else []) + CallsOf(es[1..])
  }

  lemma {:induction false} CallsOfHttp(calls: seq<Call>)
    ensures CallsOf(HttpEffects(calls)) == calls
    decreases |calls|
  {
    if |calls| > 0 {
      assert HttpEffects(calls)[1..] == HttpEffects(calls[1..]);
      CallsOfHttp(calls[1..]);
      assert calls == [calls[0]] + calls[1..];
    }
  }

  lemma {:induction false} CallsOfAppend(a: seq<Effect>, b: seq<Effect>)
    ensures CallsOf(a + b) == CallsOf(a) + CallsOf(b)
    decreases |a|
  {
    if |a| == 0 {
      assert a + b == b;
    } else {
      assert (a + b)[0] == a[0];
      assert (a + b)[1..] == a[1..] + b;
      CallsOfAppend(a[1..], b);
      var h := if a[0].Http? then [a[0].call] else [];
      assert CallsOf(a + b) == h + CallsOf(a[1..] + b);
      assert CallsOf(a) == h + CallsOf(a[1..]);
    }
  }

  /**
    One dispatched creation. The explicit API loop lets login and profile
    failures escape; the explicit direct insert has no handler, so a failed
    save escapes; both random paths catch their failures.
   */
  function Execute(d: Dispatch, s: Session, w: World): (o: Outcome)
    ensures (d.RandomViaApi? || d.RandomDirect?) ==> !o.crashed
    ensures d.ExplicitDirect? ==> (o.crashed <==> !w.explicitSaveOk)
  {
    var svc := Services(s.authUrl, s.userServiceUrl);
    match d
    case ExplicitViaApi(users) =>
      var r := CreateExplicitUsersViaApi(svc, users, true, w.explicitNet);
      Outcome(HttpEffects(r.calls), r.crashed)
    case ExplicitDirect(users) =>
      Outcome(DbEffects(ExplicitDirectOps(users, w.explicitStamps, w.hash, w.clock)), !w.explicitSaveOk)
    case RandomViaApi(n) =>
      Outcome(HttpEffects(CreateUsersViaApi(svc, s.selectedDb, n, true, w.draws, w.randomNet)), false)
    case RandomDirect(n) =>
      Outcome(DbEffects(RandomDirectOps(s.selectedDb, n, w.draws, w.randomStamps, w.hash)), false)
  }

  /**
    The creations in order; an escaped exception ends the process before the
    next one. The first creation's effects come first, and when it crashes
    they are all there is; the run crashes exactly when some creation does.
   */
  function ExecutePlan(plan: seq<Dispatch>, s: Session, w: World): (o: Outcome)
    ensures |plan| == 0 ==> o == Outcome([], false)
    ensures |plan| > 0 ==> Execute(plan[0], s, w).effects <= o.effects
    ensures |plan| > 0 && Execute(plan[0], s, w).crashed ==> o == Execute(plan[0], s, w)
    ensures o.crashed <==> exists j :: 0 <= j < |plan| && Execute(plan[j], s, w).crashed
    decreases |plan|
  {
    if |plan| == 0 then Outcome([], false)
    else
      var first := Execute(plan[0], s, w);
      if first.crashed then first
      else
        var rest := ExecutePlan(plan[1..], s, w);
        PlanTail(plan, s, w);
        Outcome(first.effects + rest.effects, rest.crashed)
  }

  /**
    A batch run: the flag loop, the session it sets up, then the creations.
    In API mode it only makes HTTP requests: it registers the explicit users
    (picture defaulted) in argument order, always at least the first, and
    then, unless a login or profile failure ended the process, the random
    users; without failing logins or profile posts nothing ends it early. In
    direct mode it only performs database operations: the rows of the
    explicit users then one save, then the random rows then one save, and a
    failed save of the explicit rows ends the process before any random row.
   */
  function RunBatch(args: seq<string>, s0: Session, w: World): (o: Outcome)
    ensures var c := ParseArgs(args, s0.userServiceUrl);
      ResolveMode(c, s0.mode) == ApiCall ==> ApiPlanFacts(c, w, o)
    ensures var c := ParseArgs(args, s0.userServiceUrl);
      ResolveMode(c, s0.mode) == DirectInsert ==> DirectPlanFacts(c, w, o)
  {
    var c := ParseArgs(args, s0.userServiceUrl);
    var s := BatchSession(c, s0);
    if s.mode == ApiCall then
      ApiPlan(c, s, w);
      ExecutePlan(DispatchPlan(c, s.mode), s, w)
    else
      DirectPlan(c, s, w);
      ExecutePlan(DispatchPlan(c, s.mode), s, w)
  }

  /** How the process ends. */
  datatype Exit = CiBuildDone(sample: RegisterDto) | Interactive | BatchDone(outcome: Outcome)

  /** The password of the sample record a CI build generates. */
  const CiSamplePassword: string := "TestPassword123!"

  /** The sample record a CI build generates from one faker draw and reports. */
  function CiSample(f: FakeUser): (d: RegisterDto)
    ensures d.PasswordsAgree() && d.password == CiSamplePassword
    ensures d.username == f.userName && d.email == f.email && d.phoneNumber == Some(f.phone)
  {
    RegisterDto(f.userName, f.email, CiSamplePassword, CiSamplePassword, Some(f.phone), None)
  }

  /**
    The entry point. A CI build only generates and reports one sample record,
    whatever the arguments; otherwise any argument selects batch mode and no
    argument the interactive menu.
   */
  function Start(args: seq<string>, ciBuild: bool, authUrlFromEnv: Option<string>, w: World): (e: Exit)
    ensures ciBuild ==> e.CiBuildDone? && e.sample.PasswordsAgree()
    ensures !ciBuild && |args| == 0 ==> e == Interactive
    ensures !ciBuild && |args| > 0 ==> e.BatchDone?
  {
    if ciBuild then CiBuildDone(CiSample(w.draws(0)))
    else if |args| == 0 then Interactive
    else BatchDone(RunBatch(args, InitialSession(authUrlFromEnv), w))
  }

  // ---------------------------------------------------------------------------
  // Batch runs end to end
  // ---------------------------------------------------------------------------

  /** Some creation of a plan's tail crashes exactly when some creation after the first does. */
  lemma PlanTail(plan: seq<Dispatch>, s: Session, w: World)
    requires |plan| > 0
    ensures (exists j :: 0 <= j < |plan[1..]| && Execute(plan[1..][j], s, w).crashed)
        <==> exists j :: 1 <= j < |plan| && Execute(plan[j], s, w).crashed
  {
    if exists j :: 1 <= j < |plan| && Execute(plan[j], s, w).crashed {
      var j :| 1 <= j < |plan| && Execute(plan[j], s, w).crashed;
      assert plan[1..][j - 1] == plan[j];
    }
  }

  /** Two creations run one after the other unless the first crashes. */
  lemma ExecuteTwo(a: Dispatch, b: Dispatch, s: Session, w: World)
    ensures var oa := Execute(a, s, w);
      ExecutePlan([a, b], s, w) ==
        if oa.crashed then oa
        else Outcome(oa.effects + Execute(b, s, w).effects, Execute(b, s, w).crashed)
  {
    assert [a, b][1..] == [b];
    assert [b][1..] == [];
    var ob := Execute(b, s, w);
    assert ob.effects + [] == ob.effects;
  }

  lemma ExecuteOne(a: Dispatch, s: Session, w: World)
    ensures ExecutePlan([a], s, w) == Execute(a, s, w)
  {
    assert [a][1..] == [];
    assert Execute(a, s, w).effects + [] == Execute(a, s, w).effects;
  }

  /** The random users a batch run asks the API to register. */
  function RandomDtos(c: Config, w: World): seq<RegisterDto> {
    var n := if c.userCount < 0 then 0 else c.userCount;
    seq(n, j requires 0 <= j < n => RandomDto(w.draws(j)))
  }

  predicate AllHttp(es: seq<Effect>) {
    forall j :: 0 <= j < |es| ==> es[j].Http?
  }

  /**
    With registrations `regs`, the explicit API stage over `users` crashed
    exactly when some user's pipeline throws, and then right after
    registering the first such user.
   */
  ghost predicate StopsAtFirstThrow(users: seq<RegisterDto>, net: Responder, regs: seq<RegisterDto>, crashed: bool) {
    && (crashed <==> exists m :: 0 <= m < |users| && RecordThrows(net, m))
    && forall m: nat :: m < |users| && FirstThrow(net, 0, m) ==> regs == Prepared(users, 0)[..m + 1]
  }

  /** The explicit API stage, seen through its effects. */
  lemma ExplicitApiEffects(users: seq<RegisterDto>, s: Session, w: World)
    ensures var o := Execute(ExplicitViaApi(users), s, w);
      && AllHttp(o.effects)
      && Registrations(CallsOf(o.effects)) <= Prepared(users, 0)
      && (|users| > 0 ==> |Registrations(CallsOf(o.effects))| > 0)
      && (!o.crashed ==> Registrations(CallsOf(o.effects)) == Prepared(users, 0))
      && (NoLoginOrProfileThrows(w.explicitNet) ==> !o.crashed)
      && StopsAtFirstThrow(users, w.explicitNet, Registrations(CallsOf(o.effects)), o.crashed)
  {
    var svc := Services(s.authUrl, s.userServiceUrl);
    var r := CreateExplicitUsersViaApi(svc, users, true, w.explicitNet);
    ExplicitApiTrace(svc, users, true, w.explicitNet);
    assert Prepared(users, 0) == seq(|users|, j requires 0 <= j < |users| => WithDefaultPicture(users[j]));
    CallsOfHttp(r.calls);
  }

  /** The random API stage on the authentication database, seen through its effects. */
  lemma RandomApiEffects(c: Config, s: Session, w: World)
    requires s.selectedDb == AuthKey
    ensures var o := Execute(RandomViaApi(c.userCount), s, w);
      AllHttp(o.effects) && !o.crashed && Registrations(CallsOf(o.effects)) == RandomDtos(c, w)
  {
    var svc := Services(s.authUrl, s.userServiceUrl);
    RandomApiTrace(svc, c.userCount, true, w.draws, w.randomNet);
    CallsOfHttp(CreateUsersViaApi(svc, s.selectedDb, c.userCount, true, w.draws, w.randomNet));
  }

  /** The effects of the API-mode creations of a configuration. */
  lemma ApiPlan(c: Config, s: Session, w: World)
    requires s.selectedDb == AuthKey
    ensures ApiPlanFacts(c, w, ExecutePlan(DispatchPlan(c, ApiCall), s, w))
  {
    if |c.explicitUsers| > 0 && c.userCount > 0 {
      ApiPlanBoth(c, s, w);
    } else if |c.explicitUsers| > 0 {
      ApiPlanExplicitOnly(c, s, w);
    } else if c.userCount > 0 {
      ApiPlanRandomOnly(c, s, w);
    } else {
      ApiPlanEmpty(c, s, w);
    }
  }

  /**
    The API-mode creations of `c` end in `o`: HTTP requests only; all the
    explicit then all the random users registered unless the process crashed;
    a crash exactly when some explicit user's login, or profile post after a
    token, throws, and then the explicit users up to the first such one
    registered and nothing after.
   */
  ghost predicate ApiPlanFacts(c: Config, w: World, o: Outcome) {
    && AllHttp(o.effects)
    && (!o.crashed ==> Registrations(CallsOf(o.effects)) == Prepared(c.explicitUsers, 0) + RandomDtos(c, w))
    && (o.crashed ==> Registrations(CallsOf(o.effects)) <= Prepared(c.explicitUsers, 0))
    && (|c.explicitUsers| > 0 ==> |Registrations(CallsOf(o.effects))| > 0)
    && (NoLoginOrProfileThrows(w.explicitNet) ==> !o.crashed)
    && StopsAtFirstThrow(c.explicitUsers, w.explicitNet, Registrations(CallsOf(o.effects)), o.crashed)
  }

  /** `ApiPlan` when there are both explicit records and a random count. */
  lemma ApiPlanBoth(c: Config, s: Session, w: World)
    requires s.selectedDb == AuthKey && |c.explicitUsers| > 0 && c.userCount > 0
    ensures ApiPlanFacts(c, w, ExecutePlan(DispatchPlan(c, ApiCall), s, w))
  {
    var users := c.explicitUsers;
    var ex := ExplicitViaApi(users);
    var rd := RandomViaApi(c.userCount);
    assert DispatchPlan(c, ApiCall) == [ex, rd];
    ExecuteTwo(ex, rd, s, w);
    ExplicitApiEffects(users, s, w);
    RandomApiEffects(c, s, w);
    var eo := Execute(ex, s, w);
    var ro := Execute(rd, s, w);
    if !eo.crashed {
      CallsOfAppend(eo.effects, ro.effects);
      RegistrationsAppend(CallsOf(eo.effects), CallsOf(ro.effects));
    }
  }

  /** `ApiPlan` when only the explicit stage runs. */
  lemma ApiPlanExplicitOnly(c: Config, s: Session, w: World)
    requires s.selectedDb == AuthKey && |c.explicitUsers| > 0 && c.userCount <= 0
    ensures ApiPlanFacts(c, w, ExecutePlan(DispatchPlan(c, ApiCall), s, w))
  {
    var ex := ExplicitViaApi(c.explicitUsers);
    assert RandomDtos(c, w) == [];
    assert DispatchPlan(c, ApiCall) == [ex];
    ExecuteOne(ex, s, w);
    ExplicitApiEffects(c.explicitUsers, s, w);
    assert Prepared(c.explicitUsers, 0) + [] == Prepared(c.explicitUsers, 0);
  }

  /** `ApiPlan` when only the random stage runs. */
  lemma ApiPlanRandomOnly(c: Config, s: Session, w: World)
    requires s.selectedDb == AuthKey && |c.explicitUsers| == 0 && c.userCount > 0
    ensures ApiPlanFacts(c, w, ExecutePlan(DispatchPlan(c, ApiCall), s, w))
  {
    var rd := RandomViaApi(c.userCount);
    assert Prepared(c.explicitUsers, 0) == [];
    assert DispatchPlan(c, ApiCall) == [rd];
    ExecuteOne(rd, s, w);
    RandomApiEffects(c, s, w);
  }

  /** `ApiPlan` when neither stage runs. */
  lemma ApiPlanEmpty(c: Config, s: Session, w: World)
    requires |c.explicitUsers| == 0 && c.userCount <= 0
    ensures ApiPlanFacts(c, w, ExecutePlan(DispatchPlan(c, ApiCall), s, w))
  {
    assert RandomDtos(c, w) == [];
    assert Prepared(c.explicitUsers, 0) == [];
    assert DispatchPlan(c, ApiCall) == [];
    assert CallsOf([]) == [];
  }

  /** The session operations of the explicit direct stage, if it runs. */
  function ExplicitStageOps(c: Config, w: World): seq<DbOp> {
    if |c.explicitUsers| == 0 then []
    else ExplicitDirectOps(c.explicitUsers, w.explicitStamps, w.hash, w.clock)
  }

  /** The session operations of the random direct stage, if it runs. */
  function RandomStageOps(c: Config, w: World): seq<DbOp> {
    if c.userCount <= 0 then []
    else RandomDirectOps(AuthKey, c.userCount, w.draws, w.randomStamps, w.hash)
  }

  lemma DirectPlanBoth(c: Config, s: Session, w: World)
    requires s.selectedDb == AuthKey
    requires |c.explicitUsers| > 0 && c.userCount > 0
    ensures var o := ExecutePlan(DispatchPlan(c, DirectInsert), s, w);
      && (o.crashed <==> !w.explicitSaveOk)
      && (o.crashed ==> o.effects == DbEffects(ExplicitStageOps(c, w)))
      && (!o.crashed ==> o.effects == DbEffects(ExplicitStageOps(c, w) + RandomStageOps(c, w)))
  {
    var a := ExplicitDirect(c.explicitUsers);
    var b := RandomDirect(c.userCount);
    assert DispatchPlan(c, DirectInsert) == [a, b];
    ExecuteTwo(a, b, s, w);
    var eo := ExplicitStageOps(c, w);
    var ro := RandomStageOps(c, w);
    assert Execute(a, s, w) == Outcome(DbEffects(eo), !w.explicitSaveOk);
    assert Execute(b, s, w) == Outcome(DbEffects(ro), false);
    DbEffectsAppend(eo, ro);
  }

  lemma DbEffectsAppend(a: seq<DbOp>, b: seq<DbOp>)
    ensures DbEffects(a) + DbEffects(b) == DbEffects(a + b)
  {
    var l := DbEffects(a) + DbEffects(b);
    var r := DbEffects(a + b);
    assert |l| == |r|;
    forall j | 0 <= j < |l|
      ensures l[j] == r[j]
    {
      if j < |a| {
        assert l[j] == Db(a[j]);
      } else {
        assert l[j] == Db(b[j - |a|]);
      }
    }
  }

  lemma DirectPlanOne(c: Config, s: Session, w: World)
    requires s.selectedDb == AuthKey
    requires |c.explicitUsers| == 0 || c.userCount <= 0
    ensures var o := ExecutePlan(DispatchPlan(c, DirectInsert), s, w);
      && (o.crashed <==> |c.explicitUsers| > 0 && !w.explicitSaveOk)
      && o.effects == DbEffects(ExplicitStageOps(c, w) + RandomStageOps(c, w))
  {
    var eo := ExplicitStageOps(c, w);
    var ro := RandomStageOps(c, w);
    if |c.explicitUsers| > 0 {
      var a := ExplicitDirect(c.explicitUsers);
      assert DispatchPlan(c, DirectInsert) == [a];
      ExecuteOne(a, s, w);
      assert Execute(a, s, w) == Outcome(DbEffects(eo), !w.explicitSaveOk);
      assert eo + ro == eo;
    } else if c.userCount > 0 {
      var b := RandomDirect(c.userCount);
      assert DispatchPlan(c, DirectInsert) == [b];
      ExecuteOne(b, s, w);
      assert Execute(b, s, w) == Outcome(DbEffects(ro), false);
      assert eo + ro == ro;
    } else {
      assert DispatchPlan(c, DirectInsert) == [];
      assert eo + ro == [];
    }
  }

  /**
    The direct-mode creations of `c` end in `o`: the explicit stage's
    operations, then, unless its save failed, the random stage's.
   */
  ghost predicate DirectPlanFacts(c: Config, w: World, o: Outcome) {
    && (o.crashed <==> |c.explicitUsers| > 0 && !w.explicitSaveOk)
    && (o.crashed ==> o.effects == DbEffects(ExplicitStageOps(c, w)))
    && (!o.crashed ==> o.effects == DbEffects(ExplicitStageOps(c, w) + RandomStageOps(c, w)))
  }

  /** The effects of the direct-mode creations of a configuration. */
  lemma DirectPlan(c: Config, s: Session, w: World)
    requires s.selectedDb == AuthKey
    ensures DirectPlanFacts(c, w, ExecutePlan(DispatchPlan(c, DirectInsert), s, w))
  {
    if |c.explicitUsers| > 0 && c.userCount > 0 {
      DirectPlanBoth(c, s, w);
    } else {
      DirectPlanOne(c, s, w);
      if |c.explicitUsers| > 0 {
        assert RandomStageOps(c, w) == [];
        assert ExplicitStageOps(c, w) + [] == ExplicitStageOps(c, w);
      }
    }
  }

  /** The flags read from `--user <spec> --api`, whatever the spec. */
  lemma SingleUserFlags(spec: string)
    ensures Flags(["--user", spec, "--api"], 0) == [AddUser(spec), UseApi]
  {
    var args := ["--user", spec, "--api"];
    ReadFlagFacts(args, 0);
    ReadFlagFacts(args, 2);
    assert ReadFlag(args, 0) == (AddUser(spec), 2);
    assert ReadFlag(args, 2) == (UseApi, 1);
    assert Flags(args, 3) == [];
  }

  /** The record `--user <mailbox>@<domain>:<password>` describes. */
  lemma SingleUserSpec(mailbox: string, domain: string, password: string)
    requires '@' !in mailbox && ':' !in mailbox && ':' !in domain && ':' !in password
    ensures var email := mailbox + "@" + domain;
      FromUserSpec(email + ":" + password)
        == Some(RegisterDto(mailbox, email, password, password, Some(DefaultPhone), None))
  {
    var email := mailbox + "@" + domain;
    assert ':' !in email;
    UserSpecRoundTrip(email, password);
    UsernameOfAddress(mailbox, domain);
  }

  /** The flag loop on `--user <email>:<password> --api`. */
  lemma SingleUserArgs(mailbox: string, domain: string, password: string, url: string)
    requires '@' !in mailbox && ':' !in mailbox && ':' !in domain && ':' !in password
    ensures var email := mailbox + "@" + domain;
      ParseArgs(["--user", email + ":" + password, "--api"], url)
        == Config(0, [RegisterDto(mailbox, email, password, password, Some(DefaultPhone), None)], true, false, url)
  {
    var email := mailbox + "@" + domain;
    var spec := email + ":" + password;
    SingleUserSpec(mailbox, domain, password);
    SingleUserConfig(spec, url);
  }

  /** The configuration the flags of `--user <spec> --api` fold to. */
  lemma SingleUserConfig(spec: string, url: string)
    ensures ParseArgs(["--user", spec, "--api"], url) == Config(0, FlagUsers(AddUser(spec)), true, false, url)
  {
    SingleUserFlags(spec);
    AddUserThenApi(["--user", spec, "--api"], spec, url);
  }

  /** Any arguments whose flags are one `--user <spec>` then `--api`. */
  lemma AddUserThenApi(args: seq<string>, spec: string, url: string)
    requires Flags(args, 0) == [AddUser(spec), UseApi]
    ensures ParseArgs(args, url) == Config(0, FlagUsers(AddUser(spec)), true, false, url)
  {
    var fl := [AddUser(spec), UseApi];
    assert CountOf(fl[0]).None? && CountOf(fl[1]).None?;
    LastOfNone(fl, CountOf, 0);
    assert UrlOf(fl[0]).None? && UrlOf(fl[1]).None?;
    LastOfNone(fl, UrlOf, url);
    assert UsersOf(fl) == FlagUsers(AddUser(spec)) by {
      assert fl[1..] == [UseApi];
      assert [UseApi][1..] == [];
    }
    assert UseApi in fl && UseDirect !in fl;
  }

  /**
    `--user <email>:<password> --api` registers exactly that user through the
    API: username the part of the email before the '@', default phone, and
    the avatar picture. The registration is sent before the login, so this
    holds even when the login or the profile post then ends the process.
   */
  lemma SingleUserViaApi(mailbox: string, domain: string, password: string, w: World)
    requires '@' !in mailbox && ':' !in mailbox && ':' !in domain && ':' !in password
    ensures var email := mailbox + "@" + domain;
      var o := RunBatch(["--user", email + ":" + password, "--api"], InitialSession(None), w);
      var d := RegisterDto(mailbox, email, password, password, Some(DefaultPhone), Some(AvatarUrl(email)));
      && Registrations(CallsOf(o.effects)) == [d]
      && AllHttp(o.effects)
  {
    var email := mailbox + "@" + domain;
    var args := ["--user", email + ":" + password, "--api"];
    var s0 := InitialSession(None);
    SingleUserArgs(mailbox, domain, password, s0.userServiceUrl);
    var parsed := RegisterDto(mailbox, email, password, password, Some(DefaultPhone), None);
    var c := ParseArgs(args, s0.userServiceUrl);
    assert Prepared([parsed], 0) == [WithDefaultPicture(parsed)];
    assert RandomDtos(c, w) == [];
  }
}
