/**
  How registration requests are derived: from an `email:password` argument,
  the fixed test user, and the avatar defaulting done before an API call.
 */
module Records {
  import opened Wrappers
  import opened Text
  import opened Models

  /** The phone number every explicitly requested user gets. */
  const DefaultPhone: string := "1234567890"

  const AvatarBase: string := "https://i.pravatar.cc/150?u="

  /** The avatar link keyed by an email or an identifier. */
  function AvatarUrl(key: string): string {
    AvatarBase + key
  }

  /**
    `email.Split('@')[0]`: the mailbox before the first `@`, or the whole
    email when it has none.
   */
  function UsernameOf(email: string): (name: string)
    ensures '@' !in name
    ensures name <= email
    ensures |name| == |email| || email[|name|] == '@'
  {
    SplitHead(email, '@');
    Split(email, '@')[0]
  }

  /**
    The request `--user <spec>` adds: `None` when `spec` has no `:`. Otherwise
    the email is the text before the first `:`, both passwords are the text
    from there to the next `:` or the end, the username is the email's
    mailbox, and the phone is the default one.
   */
  function FromUserSpec(spec: string): (r: Option<RegisterDto>)
    ensures r.Some? <==> ':' in spec
    ensures r.Some? ==>
      var i := IndexOf(spec, ':').value;
      var d := r.value;
      && d.email == spec[..i]
      && d.password <= spec[i + 1..]
      && ':' !in d.password
      && (|d.password| == |spec| - i - 1 || spec[i + 1 + |d.password|] == ':')
      && d.PasswordsAgree()
      && d.username == UsernameOf(d.email)
      && d.phoneNumber == Some(DefaultPhone)
      && d.profilePicture == None
  {
    var parts := Split(spec, ':');
    if |parts| >= 2 then
      SplitHead(spec[IndexOf(spec, ':').value + 1..], ':');
      Some(RegisterDto(UsernameOf(parts[0]), parts[0], parts[1], parts[1], Some(DefaultPhone), None))
    else
      None
  }

  /**
    Writing an email and a password as `email:password` and reading it back
    gives that email and password, as long as neither holds a `:`.
   */
  lemma UserSpecRoundTrip(email: string, password: string)
    requires ':' !in email && ':' !in password
    ensures FromUserSpec(email + ":" + password)
      == Some(RegisterDto(UsernameOf(email), email, password, password, Some(DefaultPhone), None))
  {
    var parts := [email, password];
    assert SeparatorFree(parts, ':');
    assert Join(parts, ':') == email + ":" + password;
    SplitJoin(parts, ':');
  }

  /** The username of `mailbox@domain` is the mailbox, whenever the mailbox holds no `@`. */
  lemma UsernameOfAddress(mailbox: string, domain: string)
    requires '@' !in mailbox
    ensures UsernameOf(mailbox + "@" + domain) == mailbox
  {
    var email := mailbox + "@" + domain;
    var name := UsernameOf(email);
    assert email[|mailbox|] == '@';
    assert email[..|mailbox|] == mailbox;
  }

  /** The user `--create-fixed-testuser` adds. */
  const FixedTestUser: RegisterDto :=
    RegisterDto("testuser", "testuser@example.com", "TestPassword123!", "TestPassword123!", Some(DefaultPhone), None)

  /** `char.IsWhiteSpace`: the Unicode space separators, line and paragraph separators, and the C0/C1 controls U+0009-U+000D and U+0085. */
  predicate IsWhiteSpace(c: char) {
    || c == ' ' || '\t' <= c <= '\r' || c == '\U{0085}' || c == '\U{00A0}' || c == '\U{1680}'
    || '\U{2000}' <= c <= '\U{200A}' || c == '\U{2028}' || c == '\U{2029}' || c == '\U{202F}'
    || c == '\U{205F}' || c == '\U{3000}'
  }

  /** `string.IsNullOrWhiteSpace`. */
  predicate IsNullOrWhiteSpace(s: Option<string>) {
    s.None? || forall k :: 0 <= k < |s.value| ==> IsWhiteSpace(s.value[k])
  }

  /**
    The request the explicit API loop actually sends: a missing or blank
    picture is replaced by the avatar keyed by the email, and nothing else
    changes.
   */
  function WithDefaultPicture(d: RegisterDto): (r: RegisterDto)
    ensures !IsNullOrWhiteSpace(r.profilePicture)
    ensures !IsNullOrWhiteSpace(d.profilePicture) ==> r == d
    ensures IsNullOrWhiteSpace(d.profilePicture) ==> r.profilePicture == Some(AvatarUrl(d.email))
    ensures r.(profilePicture := d.profilePicture) == d
  {
    if IsNullOrWhiteSpace(d.profilePicture) then
      assert !IsWhiteSpace(AvatarUrl(d.email)[0]);
      d.(profilePicture := Some(AvatarUrl(d.email)))
    else
      d
  }

  /** Defaulting the picture is idempotent. */
  lemma DefaultPictureIdempotent(d: RegisterDto)
    ensures WithDefaultPicture(WithDefaultPicture(d)) == WithDefaultPicture(d)
  {
    if IsNullOrWhiteSpace(d.profilePicture) {
      assert !IsWhiteSpace(AvatarUrl(d.email)[0]);
    }
  }
}
