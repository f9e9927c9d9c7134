/**
  The demo data set: five fixed personas followed by 45 generated users, and
  the two storytelling scenarios that refer to the personas by email.
 */
module Demo {
  import opened Wrappers
  import opened Text
  import opened Models
  import opened Records

  const DemoPassword: string := "Demo123!"
  const UsernameSuffix: string := "_demo"
  const PhonePrefix: string := "415555"
  /** The faker's phone format: each `#` becomes a random digit. */
  const PhonePattern: string := "415555####"
  const GeneratedDomain: string := "demo.example.com"
  const PersonaCount: nat := 5
  const GeneratedCount: nat := 45

  /**
    One draw of the demo faker: an internet user name, the mailbox of an
    email at the demo domain, the digit for each position of the phone
    format, and a GUID for the avatar.
   */
  datatype DemoDraw = DemoDraw(handle: string, mailbox: string, digits: nat -> nat, guid: string)

  /** Bogus's `#` replacement: every `#` of the format becomes a digit, everything else stays. */
  function FillPattern(p: string, digits: nat -> nat): (r: string)
    ensures |r| == |p|
    ensures forall k :: 0 <= k < |p| && p[k] != '#' ==> r[k] == p[k]
    ensures forall k :: 0 <= k < |p| && p[k] == '#' ==> r[k] == DigitChar(digits(k) % 10)
    decreases |p|
  {
    if |p| == 0 then []
    else
      var last := |p| - 1;
      FillPattern(p[..last], digits) + [if p[last] == '#' then DigitChar(digits(last) % 10) else p[last]]
  }

  /** A demo phone number: the fixed prefix and four digits. */
  predicate IsDemoPhone(p: string) {
    |p| == 10 && p[..6] == PhonePrefix && AllDigits(p[6..])
  }

  /** What every demo record has in common. */
  ghost predicate IsDemoUser(d: RegisterDto) {
    && d.password == DemoPassword
    && d.PasswordsAgree()
    && |d.username| >= |UsernameSuffix| && d.username[|d.username| - |UsernameSuffix|..] == UsernameSuffix
    && d.phoneNumber.Some? && IsDemoPhone(d.phoneNumber.value)
    && d.profilePicture.Some? && AvatarBase <= d.profilePicture.value
  }

  /** The email of the persona called `name`. */
  function PersonaEmail(name: string): string {
    "demo." + name + "@example.com"
  }

  /** The persona called `name`, whose phone ends in `digit`. */
  function Persona(name: string, digit: char): RegisterDto {
    RegisterDto(name + UsernameSuffix, PersonaEmail(name), DemoPassword, DemoPassword,
      Some("415555100" + [digit]), Some(AvatarUrl(name)))
  }

  const PersonaNames: seq<string> := ["alice", "bob", "charlie", "diana", "eve"]

  /** The personas, in order; the i-th has phone digit i + 1. */
  function Personas(): (ps: seq<RegisterDto>)
    ensures |ps| == PersonaCount
    ensures forall i :: 0 <= i < PersonaCount ==> ps[i].email == PersonaEmail(PersonaNames[i])
    ensures forall i :: 0 <= i < PersonaCount ==> ps[i].username == PersonaNames[i] + UsernameSuffix
    ensures ps[0].phoneNumber == Some("4155551001") && ps[1].phoneNumber == Some("4155551002")
    ensures ps[2].phoneNumber == Some("4155551003") && ps[3].phoneNumber == Some("4155551004")
    ensures ps[4].phoneNumber == Some("4155551005")
  {
    var ps := seq(PersonaCount, i requires 0 <= i < PersonaCount => Persona(PersonaNames[i], DigitChar(i + 1)));
    assert "415555100" + ['1'] == "4155551001" && "415555100" + ['2'] == "4155551002";
    assert "415555100" + ['3'] == "4155551003" && "415555100" + ['4'] == "4155551004";
    assert "415555100" + ['5'] == "4155551005";
    ps
  }

  /** A generated user: lower-cased handle with the suffix, an email at the demo domain. */
  function GeneratedUser(d: DemoDraw): (u: RegisterDto)
    ensures u.email == d.mailbox + "@" + GeneratedDomain
    ensures forall k :: 0 <= k < |u.username| ==> !IsAsciiUpper(u.username[k])
    ensures |u.username| == |d.handle| + |UsernameSuffix|
    ensures u.username[..|d.handle|] == Lower(d.handle) && EqualIgnoringCase(u.username[..|d.handle|], d.handle)
  {
    var name := Lower(d.handle) + UsernameSuffix;
    assert name[..|d.handle|] == Lower(d.handle);
    RegisterDto(name, d.mailbox + "@" + GeneratedDomain, DemoPassword, DemoPassword,
      Some(FillPattern(PhonePattern, d.digits)), Some(AvatarUrl(d.guid)))
  }

  /**
    The demo users: exactly 50 records, the five personas first, then one
    generated user per draw, every one of them a demo user.
   */
  function GetDemoUsers(draw: nat -> DemoDraw): (users: seq<RegisterDto>)
    ensures |users| == PersonaCount + GeneratedCount == 50
    ensures users[..PersonaCount] == Personas()
    ensures forall j :: PersonaCount <= j < |users| ==> users[j] == GeneratedUser(draw(j - PersonaCount))
    ensures forall j :: 0 <= j < |users| ==> IsDemoUser(users[j])
  {
    var generated := seq(GeneratedCount, j requires 0 <= j < GeneratedCount => GeneratedUser(draw(j)));
    var users := Personas() + generated;
    forall j | 0 <= j < |users|
      ensures IsDemoUser(users[j])
    {
      if j < PersonaCount {
        PersonaIsDemoUser(PersonaNames[j], DigitChar(j + 1));
      } else {
        GeneratedIsDemoUser(draw(j - PersonaCount));
      }
    }
    users
  }

  lemma SuffixOf(a: string, b: string)
    ensures |a + b| >= |b| && (a + b)[|a + b| - |b|..] == b
  {
  }

  /** Every persona is a demo user. */
  lemma PersonaIsDemoUser(name: string, digit: char)
    requires IsDigit(digit)
    ensures IsDemoUser(Persona(name, digit))
  {
    var p := "415555100" + [digit];
    assert p[..6] == PhonePrefix;
    assert p[6..] == ['1', '0', '0', digit];
    AllDigitsIff(p[6..]);
    SuffixOf(name, UsernameSuffix);
  }

  /** Every filled phone format is a demo phone number. */
  lemma FilledPhoneIsDemoPhone(digits: nat -> nat)
    ensures IsDemoPhone(FillPattern(PhonePattern, digits))
  {
    var r := FillPattern(PhonePattern, digits);
    assert PhonePattern == ['4', '1', '5', '5', '5', '5', '#', '#', '#', '#'];
    assert r[..6] == PhonePrefix;
    forall k | 0 <= k < |r[6..]|
      ensures IsDigit(r[6..][k])
    {
      assert r[6..][k] == r[6 + k];
    }
    AllDigitsIff(r[6..]);
  }

  /** Every generated user is a demo user. */
  lemma GeneratedIsDemoUser(d: DemoDraw)
    ensures IsDemoUser(GeneratedUser(d))
  {
    FilledPhoneIsDemoPhone(d.digits);
    SuffixOf(Lower(d.handle), UsernameSuffix);
  }

  /**
    A generated user never takes a persona's email, whatever the faker
    draws: twelve characters from the end, a generated email has the `.` of
    `demo.example.com` where a persona email has its `@`.
   */
  lemma GeneratedEmailIsNoPersonaEmail(d: DemoDraw, name: string)
    ensures GeneratedUser(d).email != PersonaEmail(name)
  {
    var g := GeneratedUser(d).email;
    var p := PersonaEmail(name);
    if |g| == |p| {
      assert g[|g| - 12] == GeneratedDomain[4] == '.';
      assert p[|p| - 12] == '@';
    }
  }

  /** A storytelling scenario: the personas it involves (by email) and its steps. */
  datatype DemoScenario = DemoScenario(name: string, description: string, users: seq<string>, actions: seq<string>)

  /** The persona emails the scenarios spell out. */
  lemma PersonaEmails()
    ensures PersonaEmail(PersonaNames[0]) == "demo.alice@example.com"
    ensures PersonaEmail(PersonaNames[1]) == "demo.bob@example.com"
    ensures PersonaEmail(PersonaNames[2]) == "demo.charlie@example.com"
  {
    assert PersonaNames[0] == "alice";
    assert PersonaNames[1] == "bob";
    assert PersonaNames[2] == "charlie";
  }

  const PerfectMatchJourney: DemoScenario := DemoScenario(
    "perfect_match_journey",
    "Alice and Bob - Perfect Match Story",
    ["demo.alice@example.com", "demo.bob@example.com"],
    [ "Both users swipe right on each other",
      "Immediate match notification",
      "Bob sends first message: 'Hi Alice! I see we both love hiking and cooking. What's your favorite trail in the Bay Area?'",
      "Alice responds within minutes with enthusiasm",
      "Natural conversation develops over 10+ messages",
      "Eventually plan to meet for coffee" ])

  const DiscoveryJourney: DemoScenario := DemoScenario(
    "discovery_journey",
    "Charlie's Profile Discovery Experience",
    ["demo.charlie@example.com"],
    [ "Charlie logs in and sees curated profile stack",
      "Swipes through 15 profiles with realistic timing",
      "Likes 3 profiles, passes on others",
      "Gets 1 immediate match, 1 match later",
      "Receives notification about new matches" ])

  /**
    The two scenarios: Alice and Bob's match, then Charlie's discovery
    session; they refer to personas only.
   */
  function GetDemoScenarios(): (ss: seq<DemoScenario>)
    ensures |ss| == 2
    ensures ss[0].users == [PersonaEmail(PersonaNames[0]), PersonaEmail(PersonaNames[1])]
    ensures ss[1].users == [PersonaEmail(PersonaNames[2])]
    ensures |ss[0].actions| == 6 && |ss[1].actions| == 5
  {
    PersonaEmails();
    [PerfectMatchJourney, DiscoveryJourney]
  }

  /** Every email a scenario mentions belongs to one of the first five demo users. */
  lemma ScenarioUsersArePersonas(draw: nat -> DemoDraw)
    ensures forall s, e :: s in GetDemoScenarios() && e in s.users ==>
      exists i :: 0 <= i < PersonaCount && GetDemoUsers(draw)[i].email == e
  {
    var ss := GetDemoScenarios();
    var users := GetDemoUsers(draw);
    assert users[..PersonaCount] == Personas();
    forall s, e | s in ss && e in s.users
      ensures exists i :: 0 <= i < PersonaCount && users[i].email == e
    {
      if s == ss[0] {
        if e == PersonaEmail(PersonaNames[0]) {
          assert users[0] == users[..PersonaCount][0];
        } else {
          assert users[1] == users[..PersonaCount][1];
        }
      } else {
        assert users[2] == users[..PersonaCount][2];
      }
    }
  }
}
