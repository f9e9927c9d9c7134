/**
  Batch mode: the flag loop that folds the command-line arguments into a
  configuration, the creation mode it resolves to, the session it sets up and
  the order in which it dispatches the work.
 */
module Batch {
  import opened Wrappers
  import opened Text
  import opened Models
  import opened Records
  import opened Targets

  const DefaultAuthUrl: string := "http://localhost:8081"
  const DefaultUserServiceUrl: string := "http://localhost:8082"

  /** What the flag loop collects. */
  datatype Config = Config(
    userCount: int,
    explicitUsers: seq<RegisterDto>,
    useApi: bool,
    useDirect: bool,
    userServiceUrl: string)

  /** The loop's starting point; the service URL starts at its current value. */
  function InitialConfig(url: string): Config {
    Config(0, [], false, false, url)
  }

  /**
    A flag as the loop reads it, with the value it consumed. `NoEffect` covers
    unknown tokens and value-taking flags whose value is missing or not a number.
   */
  datatype Flag =
    | CreateUsers(count: int)
    | UseApi
    | UseDirect
    | AddUser(spec: string)
    | ServiceUrl(url: string)
    | AddFixedTestUser
    | NoEffect

  /** The tokens the flag loop recognises. */
  datatype Keyword = CreateUsersKey | ApiKey | DirectKey | UserKey | ServiceUrlKey | FixedTestUserKey

  const Keywords: map<string, Keyword> := map[
    "--create-users" := CreateUsersKey,
    "--api" := ApiKey,
    "--direct" := DirectKey,
    "--user" := UserKey,
    "--user-service-url" := ServiceUrlKey,
    "--create-fixed-testuser" := FixedTestUserKey
  ]

  /** The flag at position `i` and how many tokens it spans (see `ReadFlagFacts`). */
  function ReadFlag(args: seq<string>, i: nat): (r: (Flag, nat))
    requires i < |args|
    ensures r.1 == 1 || r.1 == 2
    ensures i + r.1 <= |args|
  {
    var hasValue := i + 1 < |args|;
    if args[i] !in Keywords then (NoEffect, 1)
    else
      match Keywords[args[i]]
      case CreateUsersKey =>
        if hasValue && ParseInt32(args[i + 1]).Some? then (CreateUsers(ParseInt32(args[i + 1]).value), 2)
        else (NoEffect, 1)
      case ApiKey => (UseApi, 1)
      case DirectKey => (UseDirect, 1)
      case UserKey => if hasValue then (AddUser(args[i + 1]), 2) else (NoEffect, 1)
      case ServiceUrlKey => if hasValue then (ServiceUrl(args[i + 1]), 2) else (NoEffect, 1)
      case FixedTestUserKey => (AddFixedTestUser, 1)
  }

  /**
    How a token is read: `--create-users` takes the next token only when it
    parses as a number; `--user` and `--user-service-url` take the next token
    whatever it is; a value-taking flag that takes no value (in last position,
    or a count that does not parse) has no effect; every other token is one
    flag or none.
   */
  lemma ReadFlagFacts(args: seq<string>, i: nat)
    requires i < |args|
    ensures var r := ReadFlag(args, i);
      && (r.1 == 2 <==> (i + 1 < |args| &&
           (|| (args[i] == "--create-users" && ParseInt32(args[i + 1]).Some?)
            || args[i] == "--user" || args[i] == "--user-service-url")))
      && (args[i] == "--create-users" && r.1 == 2 ==> r.0 == CreateUsers(ParseInt32(args[i + 1]).value))
      && (args[i] == "--user" && r.1 == 2 ==> r.0 == AddUser(args[i + 1]))
      && (args[i] == "--user-service-url" && r.1 == 2 ==> r.0 == ServiceUrl(args[i + 1]))
      && (r.0 == UseApi <==> args[i] == "--api")
      && (r.0 == UseDirect <==> args[i] == "--direct")
      && (r.0 == AddFixedTestUser <==> args[i] == "--create-fixed-testuser")
      && (r.0.CreateUsers? ==> args[i] == "--create-users")
      && (r.0.AddUser? ==> args[i] == "--user")
      && (r.0.ServiceUrl? ==> args[i] == "--user-service-url")
      && (r.1 == 1 ==> !r.0.CreateUsers? && !r.0.AddUser? && !r.0.ServiceUrl?)
  {
  }

  /**
    `--create-users` followed by a token that does not parse as a count (or by
    nothing) is skipped on its own and changes nothing; the next token is read
    as a flag in its own right.
   */
  lemma UnparsableCountIsSkipped(args: seq<string>, i: nat, c: Config)
    requires i < |args| && args[i] == "--create-users"
    requires i + 1 == |args| || ParseInt32(args[i + 1]).None?
    ensures ParseFrom(args, i, c) == ParseFrom(args, i + 1, c)
  {
    ReadFlagFacts(args, i);
    assert Apply(c, NoEffect) == c by {
      assert c.explicitUsers + [] == c.explicitUsers;
    }
  }

  /** `--create-users` followed by any 32-bit count, written out, sets exactly that count. */
  lemma CreateUsersReadsCount(args: seq<string>, i: nat, n: int)
    requires i + 1 < |args| && args[i] == "--create-users" && args[i + 1] == FormatInt(n)
    requires Int32Min <= n <= Int32Max
    ensures ReadFlag(args, i) == (CreateUsers(n), 2)
  {
    ReadFlagFacts(args, i);
    ParseFormat(n);
  }

  /** The records a flag appends: one for a well-formed `--user` and for the fixed test user. */
  function FlagUsers(f: Flag): (users: seq<RegisterDto>)
    ensures |users| <= 1
  {
    match f
    case AddUser(spec) => (match FromUserSpec(spec) case Some(d) => [d] case None => [])
    case AddFixedTestUser => [FixedTestUser]
    case _ => []
  }

  /** The effect of one flag on the configuration (the body of the loop's switch). */
  function Apply(c: Config, f: Flag): Config {
    match f
    case CreateUsers(n) => c.(userCount := n)
    case UseApi => c.(useApi := true)
    case UseDirect => c.(useDirect := true)
    case ServiceUrl(u) => c.(userServiceUrl := u)
    case _ => c.(explicitUsers := c.explicitUsers + FlagUsers(f))
  }

  /** The loop from position `i` on (described flag by flag by `ParseFromSummary`). */
  function ParseFrom(args: seq<string>, i: nat, c: Config): Config
    decreases |args| - i
  {
    if i >= |args| then c
    else
      var r := ReadFlag(args, i);
      ParseFrom(args, i + r.1, Apply(c, r.0))
  }

  /**
    The whole loop, starting from the current user-service URL. The
    configuration it ends with holds the count of the last effective
    `--create-users` (0 if none), the records of `--user` and
    `--create-fixed-testuser` in argument order, the mode flags that were
    read, and the URL of the last `--user-service-url` (the current one if
    none).
   */
  function ParseArgs(args: seq<string>, url: string): (c: Config)
    ensures var fl := Flags(args, 0);
      c == Config(LastOf(fl, CountOf, 0), UsersOf(fl), UseApi in fl, UseDirect in fl, LastOf(fl, UrlOf, url))
  {
    ParseFromSummary(args, 0, InitialConfig(url));
    ParseFrom(args, 0, InitialConfig(url))
  }

  /** The flags the loop reads from position `i` on, in order. */
  function Flags(args: seq<string>, i: nat): seq<Flag>
    decreases |args| - i
  {
    if i >= |args| then []
    else
      var r := ReadFlag(args, i);
      [ReadFlag(args, i).0] + Flags(args, i + r.1)
  }

  // ---------------------------------------------------------------------------
  // The configuration described flag by flag
  // ---------------------------------------------------------------------------

  function CountOf(f: Flag): Option<int> {
    if f.CreateUsers? then Some(f.count) else None
  }

  function UrlOf(f: Flag): Option<string> {
    if f.ServiceUrl? then Some(f.url) else None
  }

  /** The value the last flag carrying one (as `pick` reads it) carries, or `d`. */
  function LastOf<T>(flags: seq<Flag>, pick: Flag -> Option<T>, d: T): T
    decreases |flags|
  {
    if |flags| == 0 then d
    else
      match pick(flags[|flags| - 1])
      case Some(v) => v
      case None => LastOf(flags[..|flags| - 1], pick, d)
  }

  /** The records of all flags, in flag order. */
  function UsersOf(flags: seq<Flag>): seq<RegisterDto>
    decreases |flags|
  {
    if |flags| == 0 then [] else FlagUsers(flags[0]) + UsersOf(flags[1..])
  }

  /** With no carrying flag, `LastOf` is the default. */
  lemma {:induction false} LastOfNone<T>(flags: seq<Flag>, pick: Flag -> Option<T>, d: T)
    requires forall j :: 0 <= j < |flags| ==> pick(flags[j]).None?
    ensures LastOf(flags, pick, d) == d
    decreases |flags|
  {
    if |flags| > 0 {
      var init := flags[..|flags| - 1];
      assert pick(flags[|flags| - 1]).None?;
      assert forall j :: 0 <= j < |init| ==> init[j] == flags[j];
      LastOfNone(init, pick, d);
    }
  }

  /** `LastOf` is the value of the last carrying flag. */
  lemma {:induction false} LastOfLast<T>(flags: seq<Flag>, pick: Flag -> Option<T>, d: T, j: nat)
    requires j < |flags| && pick(flags[j]).Some?
    requires forall k :: j < k < |flags| ==> pick(flags[k]).None?
    ensures LastOf(flags, pick, d) == pick(flags[j]).value
    decreases |flags|
  {
    if j < |flags| - 1 {
      var init := flags[..|flags| - 1];
      assert pick(flags[|flags| - 1]).None?;
      assert forall k :: 0 <= k < |init| ==> init[k] == flags[k];
      LastOfLast(init, pick, d, j);
    }
  }

  /** Putting a flag in front only changes the default a later flag may override. */
  lemma {:induction false} LastOfCons<T>(f: Flag, rest: seq<Flag>, pick: Flag -> Option<T>, d: T)
    ensures LastOf([f] + rest, pick, d) == LastOf(rest, pick, pick(f).GetOr(d))
    decreases |rest|
  {
    var fs := [f] + rest;
    if |rest| == 0 {
      assert fs[..|fs| - 1] == [];
    } else {
      assert fs[|fs| - 1] == rest[|rest| - 1];
      assert fs[..|fs| - 1] == [f] + rest[..|rest| - 1];
      LastOfCons(f, rest[..|rest| - 1], pick, d);
    }
  }

  /** One flag's effect, field by field. */
  lemma ApplySummary(c: Config, f: Flag)
    ensures Apply(c, f) == Config(
      CountOf(f).GetOr(c.userCount),
      c.explicitUsers + FlagUsers(f),
      c.useApi || f == UseApi,
      c.useDirect || f == UseDirect,
      UrlOf(f).GetOr(c.userServiceUrl))
  {
    if f.AddUser? || f.AddFixedTestUser? || f.NoEffect? {
    } else {
      assert FlagUsers(f) == [];
      assert c.explicitUsers + [] == c.explicitUsers;
    }
  }

  /** Records of a flag list with one more flag in front. */
  lemma UsersOfCons(f: Flag, rest: seq<Flag>, prior: seq<RegisterDto>)
    ensures prior + UsersOf([f] + rest) == (prior + FlagUsers(f)) + UsersOf(rest)
  {
    assert ([f] + rest)[1..] == rest;
  }

  /** Mode flags of a flag list with one more flag in front. */
  lemma ModesOfCons(f: Flag, rest: seq<Flag>)
    ensures (UseApi in [f] + rest) == (f == UseApi || UseApi in rest)
    ensures (UseDirect in [f] + rest) == (f == UseDirect || UseDirect in rest)
  {
  }

  /** One step of the loop. */
  lemma ParseFromCons(args: seq<string>, i: nat, c: Config)
    requires i < |args|
    ensures ParseFrom(args, i, c) == ParseFrom(args, i + ReadFlag(args, i).1, Apply(c, ReadFlag(args, i).0))
  {
  }

  /** The flags from `i` on are the flag at `i` followed by those after it. */
  lemma FlagsCons(args: seq<string>, i: nat)
    requires i < |args|
    ensures Flags(args, i) == [ReadFlag(args, i).0] + Flags(args, i + ReadFlag(args, i).1)
  {
  }

  /** The flags applied in order. */
  function Fold(fl: seq<Flag>, c: Config): Config
    decreases |fl|
  {
    if |fl| == 0 then c else Fold(fl[1..], Apply(c, fl[0]))
  }

  /** The loop is the fold of the flags it reads. */
  lemma {:induction false} ParseFromIsFold(args: seq<string>, i: nat, c: Config)
    ensures ParseFrom(args, i, c) == Fold(Flags(args, i), c)
    decreases |args| - i
  {
    if i < |args| {
      var f, j := ReadStep(args, i, c);
      ParseFromIsFold(args, j, Apply(c, f));
      FoldCons(f, Flags(args, j), c);
    }
  }

  /** One step of the loop: the flag read at `i`, and where the next one starts. */
  lemma ReadStep(args: seq<string>, i: nat, c: Config) returns (f: Flag, j: nat)
    requires i < |args|
    ensures i < j <= |args|
    ensures Flags(args, i) == [f] + Flags(args, j)
    ensures ParseFrom(args, i, c) == ParseFrom(args, j, Apply(c, f))
  {
    f, j := ReadFlag(args, i).0, i + ReadFlag(args, i).1;
    FlagsCons(args, i);
    ParseFromCons(args, i, c);
  }

  /** Folding a flag list with one more flag in front. */
  lemma FoldCons(f: Flag, rest: seq<Flag>, c: Config)
    ensures Fold([f] + rest, c) == Fold(rest, Apply(c, f))
  {
    assert ([f] + rest)[1..] == rest;
  }

  lemma {:induction false} FoldCount(fl: seq<Flag>, c: Config)
    ensures Fold(fl, c).userCount == LastOf(fl, CountOf, c.userCount)
    decreases |fl|
  {
    if |fl| > 0 {
      ApplySummary(c, fl[0]);
      FoldCount(fl[1..], Apply(c, fl[0]));
      assert fl == [fl[0]] + fl[1..];
      LastOfCons(fl[0], fl[1..], CountOf, c.userCount);
    }
  }

  lemma {:induction false} FoldUrl(fl: seq<Flag>, c: Config)
    ensures Fold(fl, c).userServiceUrl == LastOf(fl, UrlOf, c.userServiceUrl)
    decreases |fl|
  {
    if |fl| > 0 {
      ApplySummary(c, fl[0]);
      FoldUrl(fl[1..], Apply(c, fl[0]));
      assert fl == [fl[0]] + fl[1..];
      LastOfCons(fl[0], fl[1..], UrlOf, c.userServiceUrl);
    }
  }

  lemma {:induction false} FoldUsers(fl: seq<Flag>, c: Config)
    ensures Fold(fl, c).explicitUsers == c.explicitUsers + UsersOf(fl)
    decreases |fl|
  {
    if |fl| > 0 {
      ApplySummary(c, fl[0]);
      FoldUsers(fl[1..], Apply(c, fl[0]));
      assert fl == [fl[0]] + fl[1..];
      UsersOfCons(fl[0], fl[1..], c.explicitUsers);
    } else {
      assert c.explicitUsers + [] == c.explicitUsers;
    }
  }

  lemma {:induction false} FoldModes(fl: seq<Flag>, c: Config)
    ensures Fold(fl, c).useApi == (c.useApi || UseApi in fl)
    ensures Fold(fl, c).useDirect == (c.useDirect || UseDirect in fl)
    decreases |fl|
  {
    if |fl| > 0 {
      ApplySummary(c, fl[0]);
      FoldModes(fl[1..], Apply(c, fl[0]));
      assert fl == [fl[0]] + fl[1..];
      ModesOfCons(fl[0], fl[1..]);
    }
  }

  /**
    The loop from `i` on, described flag by flag: the last `--create-users`
    (or `--user-service-url`) wins, records are appended in flag order, and a
    mode flag is set when it was read at least once.
   */
  lemma ParseFromSummary(args: seq<string>, i: nat, c: Config)
    ensures var fl := Flags(args, i);
      ParseFrom(args, i, c) == Config(
        LastOf(fl, CountOf, c.userCount),
        c.explicitUsers + UsersOf(fl),
        c.useApi || UseApi in fl,
        c.useDirect || UseDirect in fl,
        LastOf(fl, UrlOf, c.userServiceUrl))
  {
    var fl := Flags(args, i);
    ParseFromIsFold(args, i, c);
    FoldCount(fl, c);
    FoldUrl(fl, c);
    FoldUsers(fl, c);
    FoldModes(fl, c);
  }

  /** True when no flag of `fl` is a `--create-users` that was read with its count. */
  ghost predicate NoCreateUsers(fl: seq<Flag>) {
    forall j :: 0 <= j < |fl| ==> !fl[j].CreateUsers?
  }

  /** Without any `--create-users`, the count keeps its initial 0. */
  lemma NoCreateUsersKeepsZero(fl: seq<Flag>)
    ensures NoCreateUsers(fl) ==> LastOf(fl, CountOf, 0) == 0
  {
    if NoCreateUsers(fl) {
      assert forall j :: 0 <= j < |fl| ==> CountOf(fl[j]).None?;
      LastOfNone(fl, CountOf, 0);
    }
  }

  /** Last wins: the count is that of the last `--create-users` read, and 0 when there is none. */
  lemma CountIsLastCreateUsers(args: seq<string>, url: string)
    ensures NoCreateUsers(Flags(args, 0)) ==> ParseArgs(args, url).userCount == 0
    ensures var fl := Flags(args, 0);
      forall j :: 0 <= j < |fl| && fl[j].CreateUsers? && (forall k :: j < k < |fl| ==> !fl[k].CreateUsers?)
        ==> ParseArgs(args, url).userCount == fl[j].count
  {
    var fl := Flags(args, 0);
    var c := ParseArgs(args, url);
    assert c.userCount == LastOf(fl, CountOf, 0);
    NoCreateUsersKeepsZero(fl);
    forall j | 0 <= j < |fl| && fl[j].CreateUsers? && (forall k :: j < k < |fl| ==> !fl[k].CreateUsers?)
      ensures c.userCount == fl[j].count
    {
      assert forall k :: j < k < |fl| ==> CountOf(fl[k]).None?;
      LastOfLast(fl, CountOf, 0, j);
    }
  }

  /** No token is `--user` or `--user-service-url`, the flags that swallow any next token. */
  ghost predicate NoSwallowingFlags(args: seq<string>) {
    forall j :: 0 <= j < |args| ==> args[j] != "--user" && args[j] != "--user-service-url"
  }

  /**
    When nothing can swallow a flag as its value, a mode flag is read exactly
    when it appears among the arguments (`--create-users` only swallows
    numbers, and no flag is one).
   */
  lemma {:induction false} ModeFlagsVisible(args: seq<string>, i: nat)
    requires NoSwallowingFlags(args)
    requires i <= |args|
    ensures UseApi in Flags(args, i) <==> "--api" in args[i..]
    ensures UseDirect in Flags(args, i) <==> "--direct" in args[i..]
    decreases |args| - i
  {
    if i < |args| {
      var r := ReadFlag(args, i);
      FlagsCons(args, i);
      ReadFlagFacts(args, i);
      ModeFlagsVisible(args, i + r.1);
      SwallowedIsNoModeFlag(args, i);
      TokensFrom(args, i, r.1);
    }
  }

  /** Only `--create-users` can swallow a token here, and only a number, which no flag is. */
  lemma SwallowedIsNoModeFlag(args: seq<string>, i: nat)
    requires NoSwallowingFlags(args)
    requires i < |args|
    ensures ReadFlag(args, i).1 == 2 ==> args[i + 1] != "--api" && args[i + 1] != "--direct"
  {
    ReadFlagFacts(args, i);
    ModeFlagsAreNotNumbers();
  }

  lemma ModeFlagsAreNotNumbers()
    ensures ParseInt32("--api") == None && ParseInt32("--direct") == None
  {
    DoubleDashIsNotNumber("--api");
    DoubleDashIsNotNumber("--direct");
  }

  /** The tokens from `i` on are the one or two read at `i`, then the rest. */
  lemma TokensFrom(args: seq<string>, i: nat, w: nat)
    requires w == 1 || w == 2
    requires i + w <= |args|
    ensures forall t :: t in args[i..] <==> (t == args[i] || (w == 2 && t == args[i + 1]) || t in args[i + w..])
  {
    assert args[i..] == args[i..i + w] + args[i + w..];
    if w == 2 {
      assert args[i..i + 2] == [args[i], args[i + 1]];
    } else {
      assert args[i..i + 1] == [args[i]];
    }
  }

  // ---------------------------------------------------------------------------
  // Mode, session and dispatch
  // ---------------------------------------------------------------------------

  datatype Mode = DirectInsert | ApiCall

  /** `--api` switches to API calls and `--direct` back to direct inserts, whatever their order. */
  function ResolveMode(c: Config, prior: Mode): (m: Mode)
    ensures c.useDirect ==> m == DirectInsert
    ensures c.useApi && !c.useDirect ==> m == ApiCall
    ensures !c.useApi && !c.useDirect ==> m == prior
  {
    if c.useDirect then DirectInsert else if c.useApi then ApiCall else prior
  }

  /** The process-wide selection: target database, its connection, the mode and the service URLs. */
  datatype Session = Session(
    selectedDb: string,
    connectionString: string,
    mode: Mode,
    authUrl: string,
    userServiceUrl: string)

  /**
    The selection at start-up: the authentication database, opened through
    its own connection, in direct-insert mode; the authentication URL is the
    environment's value when it has one and the local default otherwise.
   */
  function InitialSession(authUrlFromEnv: Option<string>): (s: Session)
    ensures s.selectedDb == AuthKey && GetDbName(s.selectedDb) == "AuthServiceDb"
    ensures s.selectedDb in DbOptions && s.connectionString == ConnectionString(DbOptions[s.selectedDb])
    ensures s.mode == DirectInsert
    ensures authUrlFromEnv.Some? ==> s.authUrl == authUrlFromEnv.value
    ensures authUrlFromEnv.None? ==> s.authUrl == DefaultAuthUrl
    ensures s.userServiceUrl == DefaultUserServiceUrl
  {
    Session(AuthKey, ConnectionString(DbOptions[AuthKey]), DirectInsert,
      authUrlFromEnv.GetOr(DefaultAuthUrl), DefaultUserServiceUrl)
  }

  /**
    The selection after the flag loop: the resolved mode, the user-service URL
    the flags left, and always the authentication database.
   */
  function BatchSession(c: Config, s: Session): (s': Session)
    ensures s'.selectedDb == AuthKey && GetDbName(s'.selectedDb) == "AuthServiceDb"
    ensures s'.connectionString == ConnectionString(DbOptions[AuthKey])
    ensures s'.mode == ResolveMode(c, s.mode)
    ensures s'.userServiceUrl == c.userServiceUrl && s'.authUrl == s.authUrl
  {
    Session(AuthKey, ConnectionString(DbOptions[AuthKey]), ResolveMode(c, s.mode), s.authUrl, c.userServiceUrl)
  }

  /** The mode batch mode resolves from the arguments (the mode starts as direct insert). */
  function BatchMode(args: seq<string>, url: string): Mode {
    ResolveMode(ParseArgs(args, url), DirectInsert)
  }

  /**
    When no token can be swallowed as a value, the run uses API calls exactly
    when `--api` appears and `--direct` does not.
   */
  lemma ModeFromTokens(args: seq<string>, url: string)
    requires NoSwallowingFlags(args)
    ensures BatchMode(args, url) == ApiCall <==> "--api" in args && "--direct" !in args
  {
    ModeFlagsVisible(args, 0);
    assert args[0..] == args;
  }

  /**
    A `--direct` swallowed as the value of `--user` does not count: these
    arguments use API calls although `--direct` appears among them.
   */
  lemma SwallowedDirectIsIgnored(url: string)
    ensures var args := ["--api", "--user", "--direct"];
      "--direct" in args && BatchMode(args, url) == ApiCall
  {
    var args := ["--api", "--user", "--direct"];
    ReadFlagFacts(args, 0);
    ReadFlagFacts(args, 1);
    assert ReadFlag(args, 0) == (UseApi, 1);
    assert ReadFlag(args, 1) == (AddUser("--direct"), 2);
    assert Flags(args, 0) == [UseApi, AddUser("--direct")];
  }

  /** One creation the batch run performs. */
  datatype Dispatch =
    | ExplicitViaApi(users: seq<RegisterDto>)
    | ExplicitDirect(users: seq<RegisterDto>)
    | RandomViaApi(count: int)
    | RandomDirect(rowCount: nat)

  predicate IsExplicit(d: Dispatch) { d.ExplicitViaApi? || d.ExplicitDirect? }

  predicate InMode(d: Dispatch, m: Mode) {
    (d.ExplicitViaApi? || d.RandomViaApi?) <==> m == ApiCall
  }

  /**
    The creations of a batch run, in order: the explicit users first (only if
    there are any), then the random users (only for a positive count), each
    in the resolved mode.
   */
  function DispatchPlan(c: Config, m: Mode): (plan: seq<Dispatch>)
    ensures |plan| <= 2
    ensures forall j :: 0 <= j < |plan| ==> InMode(plan[j], m)
    ensures (exists j :: 0 <= j < |plan| && IsExplicit(plan[j])) <==> |c.explicitUsers| > 0
    ensures (exists j :: 0 <= j < |plan| && !IsExplicit(plan[j])) <==> c.userCount > 0
    ensures forall j, k :: 0 <= j < k < |plan| ==> IsExplicit(plan[j]) && !IsExplicit(plan[k])
    ensures forall j :: 0 <= j < |plan| && IsExplicit(plan[j]) ==> plan[j].users == c.explicitUsers
    ensures forall j :: 0 <= j < |plan| && plan[j].RandomViaApi? ==> plan[j].count == c.userCount
    ensures forall j :: 0 <= j < |plan| && plan[j].RandomDirect? ==> plan[j].rowCount == c.userCount
  {
    var explicit :=
      if |c.explicitUsers| == 0 then []
      else if m == ApiCall then [ExplicitViaApi(c.explicitUsers)]
      else [ExplicitDirect(c.explicitUsers)];
    var random :=
      if c.userCount <= 0 then []
      else if m == ApiCall then [RandomViaApi(c.userCount)]
      else [RandomDirect(c.userCount)];
    var plan := explicit + random;
    assert |c.explicitUsers| > 0 ==> IsExplicit(plan[0]);
    assert c.userCount > 0 ==> !IsExplicit(plan[|plan| - 1]);
    plan
  }
}
