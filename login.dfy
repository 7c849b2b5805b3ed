/**
 * The registration form of the login page: the ordered validation chain, the e-mail
 * pattern, and the new account written into the user dictionary.
 */
module Login {
  import opened Wrappers
  import opened Text
  import opened Accounts

  /** The first failed check of the registration form. */
  datatype RegError = BlankName | BadEmail | DuplicateEmail | ShortPassword | Mismatch

  function Message(e: RegError): string {
    match e
    case BlankName => "이름을 입력하세요."
    case BadEmail => "올바른 이메일 형식이 아닙니다."
    case DuplicateEmail => "이미 등록된 이메일입니다."
    case ShortPassword => "비밀번호는 4자 이상이어야 합니다."
    case Mismatch => "비밀번호가 일치하지 않습니다."
  }

  // ---------------------------------------------------------------------------
  // The e-mail pattern ^[^@]+@[^@]+\.[^@]+$

  /** The first position of `c` in `s`. */
  function IndexOfChar(s: string, c: char): (r: Option<nat>)
    ensures r.None? <==> c !in s
    ensures r.Some? ==> r.value < |s| && s[r.value] == c && c !in s[..r.value]
  {
    if s == [] then None
    else if s[0] == c then Some(0)
    else
      match IndexOfChar(s[1..], c)
      case None => None
      case Some(k) =>
        assert s[..k + 1] == [s[0]] + s[1..][..k];
        Some(k + 1)
  }

  /** A '.' with at least one character on each side. */
  predicate HasInnerDot(d: string) {
    |d| >= 3 && '.' in d[1..|d| - 1]
  }

  /**
   * `re.match(r'^[^@]+@[^@]+\.[^@]+$', email)`, decided by a scan: the first '@' is not
   * the first character, no '@' follows it, and what follows contains an inner '.'.
   * (`$` may also match before a final newline, but a newline belongs to `[^@]`, so the
   * pattern accepts the same strings either way.)
   */
  function IsEmail(s: string): bool {
    match IndexOfChar(s, '@')
    case None => false
    case Some(k) => k > 0 && '@' !in s[k + 1..] && HasInnerDot(s[k + 1..])
  }

  /**
   * The pattern read as a split: `s[..i]`, `s[i + 1..j]` and `s[j + 1..]` are the three
   * `[^@]+` groups, `s[i]` the '@' and `s[j]` the '.'.
   */
  ghost predicate EmailSplit(s: string, i: int, j: int) {
    && 0 < i && i + 1 < j && j + 1 < |s|
    && s[i] == '@' && s[j] == '.'
    && '@' !in s[..i] && '@' !in s[i + 1..j] && '@' !in s[j + 1..]
  }

  ghost predicate MatchesEmailPattern(s: string) {
    exists i, j :: EmailSplit(s, i, j)
  }

  /** The scan accepts exactly the strings the pattern matches. */
  lemma IsEmailMatchesPattern(s: string)
    ensures IsEmail(s) <==> MatchesEmailPattern(s)
  {
    if IsEmail(s) {
      var k := IndexOfChar(s, '@').value;
      var d := s[k + 1..];
      var m :| 1 <= m < |d| - 1 && d[m] == '.';
      var j := k + 1 + m;
      assert s[k + 1..j] == d[..m];
      assert s[j + 1..] == d[m + 1..];
      assert EmailSplit(s, k, j);
    }
    if MatchesEmailPattern(s) {
      var i, j :| EmailSplit(s, i, j);
      var k := IndexOfChar(s, '@');
      assert k.Some? by { assert s[i] == '@'; }
      assert forall m :: 0 <= m < i ==> s[..i][m] == s[m];
      assert forall m :: 0 <= m < k.value ==> s[..k.value][m] == s[m];
      assert k.value == i;
      assert s[i + 1..] == s[i + 1..j] + [s[j]] + s[j + 1..];
      var d := s[i + 1..];
      assert d[j - i - 1] == '.';
      assert d[1..|d| - 1][j - i - 2] == '.';
    }
  }

  /** An accepted address holds exactly one '@', with a non-empty local part before it. */
  lemma IsEmailOneAt(s: string)
    requires IsEmail(s)
    ensures multiset(s)['@'] == 1
    ensures s[0] != '@'
  {
    var k := IndexOfChar(s, '@').value;
    assert s == s[..k] + [s[k]] + s[k + 1..];
    assert multiset(s) == multiset(s[..k]) + multiset{'@'} + multiset(s[k + 1..]);
  }

  lemma EmailAccepted()
    ensures IsEmail("a@b.c")
    ensures IsEmail("a@b.c.d")
  {
    assert IndexOfChar("a@b.c", '@') == Some(1);
    assert "a@b.c"[2..] == "b.c";
    assert "b.c"[1..2] == ".";
    assert IndexOfChar("a@b.c.d", '@') == Some(1);
    assert "a@b.c.d"[2..] == "b.c.d";
    assert "b.c.d"[1..4][0] == '.';
  }

  lemma EmailRejected()
    ensures !IsEmail("@b.c")
    ensures !IsEmail("a@b@c.d")
    ensures !IsEmail("a@.c")
    ensures !IsEmail("a@b.")
  {
    assert IndexOfChar("@b.c", '@') == Some(0);
    assert IndexOfChar("a@b@c.d", '@') == Some(1);
    assert "a@b@c.d"[2..][1] == '@';
    assert IndexOfChar("a@.c", '@') == Some(1);
    assert "a@.c"[2..] == ".c";
    assert ".c"[1..1] == [];
    assert IndexOfChar("a@b.", '@') == Some(1);
    assert "a@b."[2..] == "b.";
    assert "b."[1..1] == [];
  }

  // ---------------------------------------------------------------------------
  // The validation chain

  /**
   * The `if/elif` chain of `_render_register_form`: the first failing check, or None
   * when every check passes. `registered` is the set of e-mails already in the dictionary.
   */
  function Validate(name: string, email: string, password: string, confirm: string, registered: set<string>)
    : (r: Option<RegError>)
    ensures r == Some(BlankName) <==> AllSpace(name)
    ensures r == Some(BadEmail) <==> !AllSpace(name) && !IsEmail(email)
    ensures r == Some(DuplicateEmail) <==> !AllSpace(name) && IsEmail(email) && email in registered
    ensures r == Some(ShortPassword) <==>
      !AllSpace(name) && IsEmail(email) && email !in registered && |password| < 4
    ensures r == Some(Mismatch) <==>
      !AllSpace(name) && IsEmail(email) && email !in registered && |password| >= 4 && password != confirm
    ensures r.None? ==> email !in registered
  {
    if Strip(name) == [] then Some(BlankName)
    else if !IsEmail(email) then Some(BadEmail)
    else if email in registered then Some(DuplicateEmail)
    else if |password| < 4 then Some(ShortPassword)
    else if password != confirm then Some(Mismatch)
    else None
  }

  /**
   * Once name and e-mail pass, the form is accepted exactly when the password has at
   * least four characters and equals its confirmation.
   */
  lemma PasswordRule(name: string, email: string, password: string, confirm: string, registered: set<string>)
    requires !AllSpace(name) && IsEmail(email) && email !in registered
    ensures Validate(name, email, password, confirm, registered).None? <==> |password| >= 4 && password == confirm
  {
  }

  lemma PasswordLengthBoundary(name: string, email: string, registered: set<string>)
    requires !AllSpace(name) && IsEmail(email) && email !in registered
    ensures Validate(name, email, "abcd", "abcd", registered).None?
    ensures Validate(name, email, "abc", "abc", registered) == Some(ShortPassword)
    ensures Validate(name, email, "abcd", "abce", registered) == Some(Mismatch)
  {
  }

  /** The entry the form writes: the stripped name, role 'user', not yet approved. */
  function NewAccount(name: string, email: string, hash: string): (a: Account)
    ensures a.role == Some("user") && a.approved == Some(false) && AwaitingApproval(a)
    ensures a.name == Strip(name) && a.email == email && a.password == hash
  {
    Account(Strip(name), email, hash, Some("user"), Some(false))
  }

  /**
   * The submit branch of `_render_register_form`. `hash` stands for the bcrypt hash of
   * the password. A rejection leaves the dictionary as it was; an acceptance adds the one
   * entry, under a key that was not there before.
   */
  method Register(dir: Directory, name: string, email: string, password: string, confirm: string, hash: string -> string)
    returns (err: Option<RegError>)
    modifies dir
    ensures err == Validate(name, email, password, confirm, old(dir.users).Keys)
    ensures err.Some? ==> dir.users == old(dir.users)
    ensures err.None? ==> email !in old(dir.users) && dir.users == old(dir.users)[email := NewAccount(name, email, hash(password))]
  {
    err := Validate(name, email, password, confirm, dir.users.Keys);
    if err.None? {
      dir.users := dir.users[email := NewAccount(name, email, hash(password))];
    }
  }

  /** An accepted registration adds one entry, which is then pending, and keeps every other entry. */
  lemma RegisteredIsPending(users: map<string, Account>, name: string, email: string, password: string, confirm: string, hash: string)
    requires Validate(name, email, password, confirm, users.Keys).None?
    ensures var after := users[email := NewAccount(name, email, hash)];
      && |after.Keys| == |users.Keys| + 1
      && email in Pending(after) && !AllSpace(name) && Pending(after)[email].name == Strip(name)
      && (forall e :: e in users ==> e in after && after[e] == users[e])
  {
    var after := users[email := NewAccount(name, email, hash)];
    assert after.Keys == users.Keys + {email};
  }
}
