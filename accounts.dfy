/**
 * The credential store shared by the login page and the app shell: the
 * `credentials.usernames` dictionary of the authentication config, keyed by e-mail.
 */
module Accounts {
  import opened Wrappers

  /**
   * One user entry. `role` and `approved` are optional keys of the entry; None stands
   * for a missing key.
   */
  datatype Account = Account(name: string, email: string, password: string, role: Option<string>, approved: Option<bool>)

  /** The user dictionary, which the login page and the admin panel update in place. */
  class Directory {
    var users: map<string, Account>

    constructor (users: map<string, Account>)
      ensures this.users == users
    {
      this.users := users;
    }
  }

  /**
   * The pending test of the admin panel: an entry is waiting for approval exactly when its
   * flag is present and False.
   */
  predicate AwaitingApproval(a: Account) {
    a.approved == Some(false)
  }

  /** The admin panel's `_pending` dictionary: the entries awaiting approval. */
  function Pending(users: map<string, Account>): (r: map<string, Account>)
    ensures forall e :: e in r <==> e in users && users[e].approved == Some(false)
    ensures forall e :: e in r ==> r[e] == users[e]
  {
    map e | e in users && AwaitingApproval(users[e]) :: users[e]
  }
}
