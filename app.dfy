/**
 * The app shell: the approval gate every authenticated run passes, the role and menu
 * defaults, the admin panel's approve and reject actions, and the menu dispatch.
 */
module App {
  import opened Wrappers
  import opened Text
  import opened Accounts

  /** A session-state value: a flag, a text, or Python's None. */
  datatype SessionValue = Flag(b: bool) | Text(s: string) | NoneValue

  /** `st.session_state`, which the gate updates in place. */
  class Session {
    var entries: map<string, SessionValue>

    constructor (entries: map<string, SessionValue>)
      ensures this.entries == entries
    {
      this.entries := entries;
    }
  }

  /** The keys the gate removes from a blocked session. */
  const AuthKeys: seq<string> := ["authentication_status", "username", "name", "email", "roles"]

  const DefaultMenu: string := "🎯 목표 예산"

  /**
   * The user entry looked up by the session's user name (the empty name when it is unset):
   * the entry of the signed-in user, None for the empty record.
   */
  function UserRecord(users: map<string, Account>, entries: map<string, SessionValue>): (r: Option<Account>)
    ensures "username" in entries && entries["username"].Text? && entries["username"].s in users ==>
      r == Some(users[entries["username"].s])
    ensures "username" !in entries ==> r == (if "" in users then Some(users[""]) else None)
    ensures "username" in entries && !entries["username"].Text? ==> r.None?
  {
    if "username" !in entries then (if "" in users then Some(users[""]) else None)
    else match entries["username"]
      case Text(name) => if name in users then Some(users[name]) else None
      case _ => None
  }

  /**
   * The approval gate: only an explicit False blocks; a missing flag
   * and the empty record of an unknown user let the run through.
   */
  predicate Blocked(user: Option<Account>) {
    user.Some? && AwaitingApproval(user.value)
  }

  lemma BlockedOnlyWhenFalse(user: Option<Account>)
    ensures Blocked(user) <==> user.Some? && user.value.approved == Some(false)
    ensures user.None? ==> !Blocked(user)
    ensures user.Some? && user.value.approved.None? ==> !Blocked(user)
  {
  }

  /** The user's role, 'user' when the entry has none. */
  function Role(user: Option<Account>): (r: string)
    ensures user.Some? && user.value.role.Some? ==> r == user.value.role.value
    ensures user.None? || user.value.role.None? ==> r == "user"
  {
    if user.Some? && user.value.role.Some? then user.value.role.value else "user"
  }

  /** The session with the authentication keys removed. */
  function WithoutAuth(entries: map<string, SessionValue>): (r: map<string, SessionValue>)
    ensures forall k :: k in r <==> k in entries && k !in AuthKeys
    ensures forall k :: k in r ==> r[k] == entries[k]
  {
    map k | k in entries && k !in AuthKeys :: entries[k]
  }

  /** Removes each authentication key from the session, where present. */
  method PopAuthKeys(session: Session)
    modifies session
    ensures session.entries == WithoutAuth(old(session.entries))
  {
    var i := 0;
    while i < |AuthKeys|
      invariant 0 <= i <= |AuthKeys|
      invariant forall k :: k in session.entries <==> k in old(session.entries) && k !in AuthKeys[..i]
      invariant forall k :: k in session.entries ==> session.entries[k] == old(session.entries)[k]
    {
      assert AuthKeys[..i + 1] == AuthKeys[..i] + [AuthKeys[i]];
      session.entries := session.entries - {AuthKeys[i]};
      i := i + 1;
    }
    assert AuthKeys[..i] == AuthKeys;
  }

  /**
   * The gate of the app shell, for an authenticated run. A blocked user loses the five
   * authentication keys and gets `_approval_pending`; any other user gets the role (by
   * default 'user') and, on the first run, the default menu.
   */
  method Gate(session: Session, dir: Directory) returns (blocked: bool)
    modifies session
    ensures var user := UserRecord(dir.users, old(session.entries));
      blocked == Blocked(user)
    ensures blocked ==> session.entries == WithoutAuth(old(session.entries))["_approval_pending" := Flag(true)]
    ensures var user := UserRecord(dir.users, old(session.entries));
      !blocked ==> session.entries == WithMenuDefault(old(session.entries)["role" := Text(Role(user))])
  {
    var user := UserRecord(dir.users, session.entries);
    blocked := Blocked(user);
    if blocked {
      PopAuthKeys(session);
      session.entries := session.entries["_approval_pending" := Flag(true)];
    } else {
      session.entries := session.entries["role" := Text(Role(user))];
      if "menu" !in session.entries {
        session.entries := session.entries["menu" := Text(DefaultMenu)];
      }
    }
  }

  /** The session with the menu choice defaulted to the budget page when none is set. */
  function WithMenuDefault(entries: map<string, SessionValue>): (r: map<string, SessionValue>)
    ensures "menu" in r
    ensures "menu" in entries ==> r == entries
    ensures "menu" !in entries ==> r["menu"] == Text(DefaultMenu) && r - {"menu"} == entries
  {
    if "menu" in entries then entries else entries["menu" := Text(DefaultMenu)]
  }

  /** A blocked session holds no authentication key afterwards and carries the pending flag. */
  lemma BlockedSessionSignedOut(entries: map<string, SessionValue>)
    ensures var after := WithoutAuth(entries)["_approval_pending" := Flag(true)];
      && (forall i :: 0 <= i < |AuthKeys| ==> AuthKeys[i] !in after)
      && after["_approval_pending"] == Flag(true)
      && (forall k :: k in entries && k !in AuthKeys && k != "_approval_pending" ==> k in after && after[k] == entries[k])
  {
  }

  // ---------------------------------------------------------------------------
  // Approve and reject

  /** The approve button: the entry's flag becomes True. */
  method Approve(dir: Directory, email: string)
    requires email in dir.users
    modifies dir
    ensures dir.users == old(dir.users)[email := old(dir.users)[email].(approved := Some(true))]
  {
    dir.users := dir.users[email := dir.users[email].(approved := Some(true))];
  }

  /** The reject button: the entry is removed. */
  method Reject(dir: Directory, email: string)
    requires email in dir.users
    modifies dir
    ensures dir.users == old(dir.users) - {email}
  {
    dir.users := dir.users - {email};
  }

  /** Approving takes exactly that entry off the pending list and unblocks it. */
  lemma ApproveLeavesPending(users: map<string, Account>, email: string)
    requires email in users
    ensures var after := users[email := users[email].(approved := Some(true))];
      && Pending(after) == Pending(users) - {email}
      && !Blocked(Some(after[email]))
      && (forall e :: e in users && e != email ==> e in after && after[e] == users[e])
  {
    var after := users[email := users[email].(approved := Some(true))];
    assert Pending(after).Keys == Pending(users).Keys - {email};
  }

  /** Rejecting takes exactly that entry off the pending list and out of the dictionary. */
  lemma RejectLeavesPending(users: map<string, Account>, email: string)
    requires email in users
    ensures var after := users - {email};
      && Pending(after) == Pending(users) - {email}
      && email !in after
      && (forall e :: e in users && e != email ==> e in after && after[e] == users[e])
  {
    var after := users - {email};
    assert Pending(after).Keys == Pending(users).Keys - {email};
  }

  // ---------------------------------------------------------------------------
  // The menu

  datatype Page = BudgetPage | TransactionsPage | AssetsPage | AnalysisPage | ChatbotPage | UploadPage | NoPage

  const MenuOptions: seq<string> := ["🎯 목표 예산", "💰 수입/지출 현황", "🏦 자산 현황", "📊 분석 리포트", "🤖 컨설턴트 챗봇", "📂 데이터 업로드"]

  /** The dispatch at the end of the app shell: the first substring test that holds picks the page. */
  function Route(menu: string): (p: Page)
    ensures p == BudgetPage <==> Contains(menu, "목표 예산")
    ensures p == NoPage <==>
      !Contains(menu, "목표 예산") && !Contains(menu, "수입/지출 현황") && !Contains(menu, "자산 현황")
      && !Contains(menu, "분석 리포트") && !Contains(menu, "챗봇") && !Contains(menu, "업로드")
  {
    if Contains(menu, "목표 예산") then BudgetPage
    else if Contains(menu, "수입/지출 현황") then TransactionsPage
    else if Contains(menu, "자산 현황") then AssetsPage
    else if Contains(menu, "분석 리포트") then AnalysisPage
    else if Contains(menu, "챗봇") then ChatbotPage
    else if Contains(menu, "업로드") then UploadPage
    else NoPage
  }

  /** The default menu shows the budget page. */
  lemma DefaultMenuRoute()
    ensures Route(DefaultMenu) == BudgetPage
  {
  }

  /** The tests the dispatch makes, in order, before its last one. */
  const RouteTests: seq<string> := ["목표 예산", "수입/지출 현황", "자산 현황", "분석 리포트", "챗봇", "업로드"]

  /** The sidebar label `i` fails every test before test `i`. */
  lemma EarlierTestsFail(i: nat, j: nat)
    requires j < i < |MenuOptions|
    ensures !Contains(MenuOptions[i], RouteTests[j])
  {
    if i <= 3 {
      EarlierTestsFailLow(i, j);
    } else {
      EarlierTestsFailHigh(i, j);
    }
  }

  lemma EarlierTestsFailLow(i: nat, j: nat)
    requires j < i <= 3
    ensures !Contains(MenuOptions[i], RouteTests[j])
  {
    var s, t := MenuOptions[i], RouteTests[j];
    ContainsFirstChar(s, t);
    if i == 1 {
      assert t[0] == '목';
    } else if i == 2 {
      assert t[0] == '목' || t[0] == '수';
    } else {
      assert t[0] == '목' || t[0] == '수' || t[0] == '자';
    }
  }

  lemma EarlierTestsFailHigh(i: nat, j: nat)
    requires j < i && 4 <= i < |MenuOptions|
    ensures !Contains(MenuOptions[i], RouteTests[j])
  {
    var s, t := MenuOptions[i], RouteTests[j];
    ContainsFirstChar(s, t);
    if i == 4 {
      assert t[0] == '목' || t[0] == '수' || t[0] == '자' || t[0] == '분';
    } else {
      assert t[0] == '목' || t[0] == '수' || t[0] == '자' || t[0] == '분' || t[0] == '챗';
    }
  }

  /** The sidebar label `i` passes test `i`: it ends with that text after an emoji and a space. */
  lemma OwnTestHolds(i: nat)
    requires i < |MenuOptions|
    ensures Contains(MenuOptions[i], RouteTests[i])
  {
    var s := MenuOptions[i];
    var k := |s| - |RouteTests[i]|;
    assert s[k..k + |RouteTests[i]|] == RouteTests[i];
    assert OccursAt(RouteTests[i], s, k);
  }

  /** Each sidebar label reaches its own page. */
  lemma MenuRoutes(i: nat)
    requires i < |MenuOptions|
    ensures Route(MenuOptions[i]) == [BudgetPage, TransactionsPage, AssetsPage, AnalysisPage, ChatbotPage, UploadPage][i]
  {
    forall j | 0 <= j < i ensures !Contains(MenuOptions[i], RouteTests[j]) {
      EarlierTestsFail(i, j);
    }
    OwnTestHolds(i);
    if i > 0 { assert !Contains(MenuOptions[i], RouteTests[0]); }
    if i > 1 { assert !Contains(MenuOptions[i], RouteTests[1]); }
    if i > 2 { assert !Contains(MenuOptions[i], RouteTests[2]); }
    if i > 3 { assert !Contains(MenuOptions[i], RouteTests[3]); }
    if i > 4 { assert !Contains(MenuOptions[i], RouteTests[4]); }
  }
}
