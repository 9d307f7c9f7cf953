/** User accounts: the guards, the handlers, and what every serialised run of them keeps. */
module Accounts {
  import opened Prelude

  datatype Role = UserRole | AdminRole

  /** The stored hash is represented by the password it was made from. */
  datatype Account = Account(username: string, password: string, role: Role)

  /** The claims a signed token carries. */
  datatype Token = Token(username: string, role: Role)

  /** accounts has a unique index on the username; issued are all tokens ever handed out. */
  datatype State = State(accounts: map<string, Account>, issued: set<Token>)

  /** A request with the bearer token it presents, if that parses and has not expired. */
  datatype Request =
    | Create(bearer: Option<Token>, username: string, password: string)
    | Delete(bearer: Option<Token>, username: string)
    | ChangePassword(bearer: Option<Token>, username: string, password: string)
    | Login(username: string, password: string)

  /** Which calls into the database, the hash and the signer fail during a request. */
  datatype Faults = Faults(guard: bool, count: bool, fetch: bool, hash: bool, write: bool, sign: bool)

  const OK := 200
  const CREATED := 201
  const BAD_REQUEST := 400
  const UNAUTHORIZED := 401
  const FORBIDDEN := 403
  const NOT_FOUND := 404
  const CONFLICT := 409
  const INTERNAL := 500

  predicate ValidPassword(p: string) {
    && |p| >= 8
    && (exists i :: 0 <= i < |p| && 'A' <= p[i] <= 'Z')
    && (exists i :: 0 <= i < |p| && 'a' <= p[i] <= 'z')
    && (exists i :: 0 <= i < |p| && ('0' <= p[i] <= '9' || p[i] in "!@#$%^&*()_+-=[]{};':\"|,.<>?~"))
  }

  /** Claims read from a bearer: only tokens the server signed verify. */
  function Claims(s: State, bearer: Option<Token>): Option<Token> {
    if bearer.Some? && bearer.value in s.issued then bearer else None
  }

  /** 200 lets the request through. */
  function AdminOrFirstUser(s: State, bearer: Option<Token>, f: Faults): int {
    if f.guard then INTERNAL
    else if |s.accounts| > 0 then AdminOnly(s, bearer)
    else OK
  }

  function AdminOnly(s: State, bearer: Option<Token>): int {
    var c := Claims(s, bearer);
    if c.None? then UNAUTHORIZED else if c.value.role != AdminRole then FORBIDDEN else OK
  }

  function AdminOrMe(s: State, bearer: Option<Token>, username: string): int {
    var c := Claims(s, bearer);
    if c.None? then UNAUTHORIZED
    else if c.value.role == AdminRole || c.value.username == username then OK
    else FORBIDDEN
  }

  function CreateResult(s: State, username: string, password: string, f: Faults): (State, int) {
    if username == "" || password == "" || !ValidPassword(password) then (s, BAD_REQUEST)
    else if f.count || f.hash then (s, INTERNAL)
    else if username in s.accounts then (s, CONFLICT)
    else if f.write then (s, INTERNAL)
    else
      var role := if |s.accounts| > 0 then UserRole else AdminRole;
      (s.(accounts := s.accounts[username := Account(username, password, role)]), CREATED)
  }

  function DeleteResult(s: State, username: string, f: Faults): (State, int) {
    if f.fetch then (s, INTERNAL)
    else if username !in s.accounts then (s, NOT_FOUND)
    else if s.accounts[username].role == AdminRole then (s, BAD_REQUEST)
    else if f.write then (s, INTERNAL)
    else (s.(accounts := s.accounts - {username}), OK)
  }

  function ChangeResult(s: State, username: string, password: string, f: Faults): (State, int) {
    if password == "" || !ValidPassword(password) then (s, BAD_REQUEST)
    else if f.fetch then (s, INTERNAL)
    else if username !in s.accounts then (s, NOT_FOUND)
    else if f.hash || f.write then (s, INTERNAL)
    else (s.(accounts := s.accounts[username := s.accounts[username].(password := password)]), OK)
  }

  function LoginResult(s: State, username: string, password: string, f: Faults): (State, int) {
    if username == "" || password == "" then (s, BAD_REQUEST)
    else if f.fetch then (s, INTERNAL)
    else if username !in s.accounts || s.accounts[username].password != password then (s, UNAUTHORIZED)
    else if f.sign then (s, INTERNAL)
    else
      var a := s.accounts[username];
      (s.(issued := s.issued + {Token(a.username, a.role)}), OK)
  }

  /** A request through its guard: new state and status. */
  function Handle(s: State, r: Request, f: Faults): (State, int) {
    match r
    case Create(bearer, u, p) =>
      var g := AdminOrFirstUser(s, bearer, f); if g != OK then (s, g) else CreateResult(s, u, p, f)
    case Delete(bearer, u) =>
      var g := AdminOnly(s, bearer); if g != OK then (s, g) else DeleteResult(s, u, f)
    case ChangePassword(bearer, u, p) =>
      var g := AdminOrMe(s, bearer, u); if g != OK then (s, g) else ChangeResult(s, u, p, f)
    case Login(u, p) => LoginResult(s, u, p, f)
  }

  // ---------- the handlers as written, over a stored collection ----------

  class AccountStore {
    var accounts: map<string, Account>
    ghost var issued: set<Token>

    ghost function Contents(): State
      reads this
    {
      State(accounts, issued)
    }

    constructor ()
      ensures Contents() == State(map[], {})
    {
      accounts, issued := map[], {};
    }

    method IsFirstAccountIssued(f: Faults) returns (issuedFirst: bool, err: bool)
      ensures err == f.count && (!err ==> issuedFirst == (|accounts| > 0))
    {
      if f.count { return false, true; }
      return |accounts| > 0, false;
    }

    method FetchDBUserAccount(username: string, f: Faults) returns (account: Option<Account>, err: bool)
      ensures err == f.fetch
      ensures !err ==> account == if username in accounts then Some(accounts[username]) else None
    {
      if f.fetch { return None, true; }
      if username !in accounts { return None, false; }
      return Some(accounts[username]), false;
    }

    method CreateUserAccount(username: string, password: string, f: Faults) returns (status: int)
      modifies this`accounts
      ensures (Contents(), status) == CreateResult(old(Contents()), username, password, f)
      ensures status == 201 <==>
              username != "" && ValidPassword(password) && username !in old(accounts) && !f.count && !f.hash && !f.write
      ensures status == 400 <==> username == "" || !ValidPassword(password)
      ensures username != "" && ValidPassword(password) && username in old(accounts) && !f.count && !f.hash ==> status == 409
      ensures status in {201, 400, 409, 500}
      ensures accounts == if status == 201
                          then old(accounts)[username := Account(username, password, if old(accounts) == map[] then AdminRole else UserRole)]
                          else old(accounts)
    {
      assert old(accounts) != map[] ==> old(accounts).Keys != {};
      if username == "" { return BAD_REQUEST; }
      if password == "" { return BAD_REQUEST; }
      if !ValidPassword(password) { return BAD_REQUEST; }
      var role := UserRole;
      var first, err := IsFirstAccountIssued(f);
      if err { return INTERNAL; }
      if !first {
        role := AdminRole;
      }
      if f.hash { return INTERNAL; }
      if username in accounts { return CONFLICT; }
      if f.write { return INTERNAL; }
      accounts := accounts[username := Account(username, password, role)];
      return CREATED;
    }

    method DeleteUserAccount(username: string, f: Faults) returns (status: int)
      modifies this`accounts
      ensures (Contents(), status) == DeleteResult(old(Contents()), username, f)
      ensures status == 200 <==>
              username in old(accounts) && old(accounts)[username].role == UserRole && !f.fetch && !f.write
      ensures status == 404 <==> username !in old(accounts) && !f.fetch
      ensures status == 400 <==> username in old(accounts) && old(accounts)[username].role == AdminRole && !f.fetch
      ensures status in {200, 400, 404, 500}
      ensures username !in accounts <==> username !in old(accounts) || status == 200
      ensures forall u :: u != username ==> (u in accounts <==> u in old(accounts)) && (u in accounts ==> accounts[u] == old(accounts)[u])
    {
      var account, err := FetchDBUserAccount(username, f);
      if err { return INTERNAL; }
      if account.None? { return NOT_FOUND; }
      if account.value.role == AdminRole { return BAD_REQUEST; }
      if f.write { return INTERNAL; }
      accounts := accounts - {username};
      return OK;
    }

    method ChangeUserAccountPassword(username: string, password: string, f: Faults) returns (status: int)
      requires Keyed(Contents())
      modifies this`accounts
      ensures (Contents(), status) == ChangeResult(old(Contents()), username, password, f)
      ensures status == 200 <==> ValidPassword(password) && username in old(accounts) && !f.fetch && !f.hash && !f.write
      ensures status == 400 <==> !ValidPassword(password)
      ensures status == 404 <==> ValidPassword(password) && username !in old(accounts) && !f.fetch
      ensures status in {200, 400, 404, 500} && accounts.Keys == old(accounts).Keys
      ensures forall u :: u in accounts ==>
                accounts[u].username == old(accounts)[u].username && accounts[u].role == old(accounts)[u].role
                && accounts[u].password == if u == username && status == 200 then password else old(accounts)[u].password
    {
      if password == "" { return BAD_REQUEST; }
      if !ValidPassword(password) { return BAD_REQUEST; }
      var account, err := FetchDBUserAccount(username, f);
      if err { return INTERNAL; }
      if account.None? { return NOT_FOUND; }
      if f.hash { return INTERNAL; }
      var renewed := Account(account.value.username, password, account.value.role);
      if f.write { return INTERNAL; }
      accounts := accounts[renewed.username := renewed];
      return OK;
    }

    method LogIn(username: string, password: string, f: Faults) returns (token: Option<Token>, status: int)
      modifies this`issued
      ensures (Contents(), status) == LoginResult(old(Contents()), username, password, f)
      ensures status == 200 <==>
              username != "" && password != "" && username in accounts && accounts[username].password == password && !f.fetch && !f.sign
      ensures status == 400 <==> username == "" || password == ""
      ensures status == 401 <==>
              username != "" && password != "" && !f.fetch && (username in accounts ==> accounts[username].password != password)
      ensures status in {200, 400, 401, 500}
      ensures token.Some? <==> status == 200
      ensures token.Some? ==> issued == old(issued) + {token.value} && token.value.role == accounts[username].role
      ensures token.None? ==> issued == old(issued)
    {
      if username == "" { return None, BAD_REQUEST; }
      if password == "" { return None, BAD_REQUEST; }
      if f.fetch { return None, INTERNAL; }
      if username !in accounts { return None, UNAUTHORIZED; }
      var a := accounts[username];
      if a.password != password { return None, UNAUTHORIZED; }
      if f.sign { return None, INTERNAL; }
      token := Some(Token(a.username, a.role));
      issued := issued + {token.value};
      return token, OK;
    }
  }

  // ---------- runs ----------

  ghost predicate Keyed(s: State) {
    forall u :: u in s.accounts ==> s.accounts[u].username == u
  }

  predicate IsAdmin(s: State, u: string) { u in s.accounts && s.accounts[u].role == AdminRole }

  ghost predicate OneAdminOrEmpty(s: State) {
    s.accounts == map[] || exists u :: IsAdmin(s, u) && forall v :: IsAdmin(s, v) ==> v == u
  }

  /** Every token carries the role its account has now, and an admin token belongs to a present admin. */
  ghost predicate TokensCurrent(s: State) {
    forall t :: t in s.issued ==>
      && (t.username in s.accounts ==> t.role == s.accounts[t.username].role)
      && (t.role == AdminRole ==> IsAdmin(s, t.username))
  }

  ghost predicate Inv(s: State) {
    Keyed(s) && OneAdminOrEmpty(s) && TokensCurrent(s) && (s.accounts == map[] ==> s.issued == {})
  }

  ghost predicate IsRun(run: seq<State>, requests: seq<Request>, faults: seq<Faults>) {
    && |run| == |requests| + 1 == |faults| + 1
    && run[0] == State(map[], {})
    && forall i :: 0 <= i < |requests| ==> run[i + 1] == Handle(run[i], requests[i], faults[i]).0
  }

  lemma NonEmpty(s: State, u: string)
    requires u in s.accounts
    ensures |s.accounts| > 0
  {
    assert s.accounts.Keys != {};
  }

  /** What one request can do to the roles: an admin stays, and a new admin only as first account. */
  lemma HandleRoles(s: State, r: Request, f: Faults, u: string)
    requires Keyed(s)
    ensures Keyed(Handle(s, r, f).0)
    ensures IsAdmin(s, u) ==> IsAdmin(Handle(s, r, f).0, u)
    ensures s.accounts != map[] && IsAdmin(Handle(s, r, f).0, u) ==> IsAdmin(s, u)
    ensures u in s.accounts && u in Handle(s, r, f).0.accounts ==> Handle(s, r, f).0.accounts[u].role == s.accounts[u].role
    ensures s.accounts == map[] && Handle(s, r, f).0.accounts != map[] ==>
              r.Create? && (IsAdmin(Handle(s, r, f).0, u) <==> u == r.username)
  {
    if s.accounts != map[] {
      assert s.accounts.Keys != {};
    }
  }

  lemma HandleOneAdmin(s: State, r: Request, f: Faults)
    requires Keyed(s) && OneAdminOrEmpty(s)
    ensures OneAdminOrEmpty(Handle(s, r, f).0)
  {
    hide Handle, Keyed;
    var t := Handle(s, r, f).0;
    forall u
      ensures IsAdmin(s, u) ==> IsAdmin(t, u)
      ensures s.accounts != map[] && IsAdmin(t, u) ==> IsAdmin(s, u)
      ensures s.accounts == map[] && t.accounts != map[] ==> r.Create? && (IsAdmin(t, u) <==> u == r.username)
    {
      HandleRoles(s, r, f, u);
    }
    if s.accounts != map[] {
      var a :| IsAdmin(s, a) && forall v :: IsAdmin(s, v) ==> v == a;
      assert IsAdmin(t, a);
    } else if t.accounts != map[] {
      assert IsAdmin(t, r.username);
    }
  }

  lemma HandleTokens(s: State, r: Request, f: Faults)
    requires Inv(s)
    ensures TokensCurrent(Handle(s, r, f).0)
  {
    var t := Handle(s, r, f).0;
    forall k | k in t.issued
      ensures k.username in t.accounts ==> k.role == t.accounts[k.username].role
      ensures k.role == AdminRole ==> IsAdmin(t, k.username)
    {
      HandleRoles(s, r, f, k.username);
      if k in s.issued && k.role == UserRole && k.username !in s.accounts && k.username in t.accounts {
        NewAccountIsUser(s, r, f, k);
      }
    }
  }

  /** A token in circulation means there are accounts, so whoever is created now is a plain user. */
  lemma NewAccountIsUser(s: State, r: Request, f: Faults, k: Token)
    requires Inv(s) && k.username !in s.accounts && k.username in Handle(s, r, f).0.accounts
    requires s.accounts != map[] || s.issued == {}
    ensures s.accounts != map[] ==> Handle(s, r, f).0.accounts[k.username].role == UserRole
  {
    if s.accounts != map[] { assert s.accounts.Keys != {}; }
  }

  lemma HandleInv(s: State, r: Request, f: Faults)
    requires Inv(s)
    ensures Inv(Handle(s, r, f).0)
  {
    HandleRoles(s, r, f, "");
    HandleOneAdmin(s, r, f);
    HandleTokens(s, r, f);
  }

  lemma {:induction false} RunInv(run: seq<State>, requests: seq<Request>, faults: seq<Faults>, i: nat)
    requires IsRun(run, requests, faults) && i < |run|
    ensures Inv(run[i])
  {
    if i > 0 {
      RunInv(run, requests, faults, i - 1);
      HandleInv(run[i - 1], requests[i - 1], faults[i - 1]);
    }
  }

  /** At every point of every run there is no account, or exactly one admin. */
  lemma OneAdmin(run: seq<State>, requests: seq<Request>, faults: seq<Faults>, i: nat)
    requires IsRun(run, requests, faults) && i < |run|
    ensures run[i].accounts == map[] || exists u :: IsAdmin(run[i], u) && forall v :: IsAdmin(run[i], v) ==> v == u
  {
    RunInv(run, requests, faults, i);
  }

  /** The admins of s are admins of t, and once s has accounts t has no other admin. */
  ghost predicate SameAdmins(s: State, t: State) {
    && (forall u :: IsAdmin(s, u) ==> IsAdmin(t, u))
    && (s.accounts != map[] ==> t.accounts != map[] && forall u :: IsAdmin(t, u) ==> IsAdmin(s, u))
  }

  lemma HandleKeepsAdmin(s: State, r: Request, f: Faults)
    requires Inv(s)
    ensures SameAdmins(s, Handle(s, r, f).0)
  {
    hide Handle;
    var t := Handle(s, r, f).0;
    forall u ensures IsAdmin(s, u) ==> IsAdmin(t, u)
             ensures s.accounts != map[] && IsAdmin(t, u) ==> IsAdmin(s, u) {
      HandleRoles(s, r, f, u);
    }
    if s.accounts != map[] {
      var a :| IsAdmin(s, a);
      assert IsAdmin(t, a);
    }
  }

  /** The admin is never removed or demoted, and once there are accounts nobody becomes admin. */
  lemma {:induction false} AdminStays(run: seq<State>, requests: seq<Request>, faults: seq<Faults>, i: nat, j: nat)
    requires IsRun(run, requests, faults) && i <= j < |run|
    ensures SameAdmins(run[i], run[j])
    decreases j - i
  {
    hide Handle, Inv;
    if i < j {
      AdminStays(run, requests, faults, i, j - 1);
      RunInv(run, requests, faults, j - 1);
      HandleKeepsAdmin(run[j - 1], requests[j - 1], faults[j - 1]);
    }
  }

  /** A username has one role for ever, even if its account is deleted and created again. */
  lemma RoleNeverChanges(run: seq<State>, requests: seq<Request>, faults: seq<Faults>, i: nat, j: nat, u: string)
    requires IsRun(run, requests, faults) && i <= j < |run| && u in run[i].accounts && u in run[j].accounts
    ensures run[i].accounts[u].role == run[j].accounts[u].role
  {
    AdminStays(run, requests, faults, i, j);
    assert IsAdmin(run[i], u) <==> IsAdmin(run[j], u);
  }

  /** Every token ever issued carries the current role of its account, if that account exists. */
  lemma TokensCarryCurrentRole(run: seq<State>, requests: seq<Request>, faults: seq<Faults>, i: nat, t: Token)
    requires IsRun(run, requests, faults) && i < |run| && t in run[i].issued && t.username in run[i].accounts
    ensures t.role == run[i].accounts[t.username].role
  {
    RunInv(run, requests, faults, i);
  }

  /** Once an account exists, accounts appear and disappear only on requests of the admin, and a
      password changes only on a request of the admin or of the account's own user. */
  lemma ChangesAreAuthorised(run: seq<State>, requests: seq<Request>, faults: seq<Faults>, i: nat, u: string)
    requires IsRun(run, requests, faults) && i < |requests| && run[i].accounts != map[]
    ensures (u in run[i].accounts) != (u in run[i + 1].accounts) ==>
              (requests[i].Create? || requests[i].Delete?) && requests[i].bearer.Some? && IsAdmin(run[i], requests[i].bearer.value.username)
    ensures u in run[i].accounts && u in run[i + 1].accounts && run[i].accounts[u] != run[i + 1].accounts[u] ==>
              requests[i].ChangePassword? && requests[i].bearer.Some?
              && (IsAdmin(run[i], requests[i].bearer.value.username) || requests[i].bearer.value.username == u)
  {
    RunInv(run, requests, faults, i);
    var a :| IsAdmin(run[i], a);
    NonEmpty(run[i], a);
  }

  // ---------- answers of the guards ----------

  /** The request needs a token of the admin. */
  predicate NeedsAdmin(s: State, r: Request, f: Faults) { r.Delete? || (r.Create? && s.accounts != map[] && !f.guard) }

  /** Without a token of the server a guarded request is answered 401, and with one that is not
      enough 403; either way nothing changes. */
  lemma GuardAnswers(s: State, r: Request, f: Faults)
    requires NeedsAdmin(s, r, f) || r.ChangePassword?
    ensures r.bearer.None? || r.bearer.value !in s.issued ==> Handle(s, r, f) == (s, 401)
    ensures r.bearer.Some? && r.bearer.value in s.issued && r.bearer.value.role == UserRole ==>
              NeedsAdmin(s, r, f) || r.bearer.value.username != r.username ==> Handle(s, r, f) == (s, 403)
  {
    if s.accounts != map[] { assert s.accounts.Keys != {}; }
  }

  /** A request that goes through is answered 201 if it creates an account and 200 otherwise, and
      a creation whose guard cannot count the accounts 500. */
  lemma Answers(s: State, r: Request, f: Faults, u: string, p: string)
    ensures Creates(s, r, f, u, p) ==> Handle(s, r, f).1 == 201
    ensures Changes(s, r, f, u, p) || Deletes(s, r, f, u) ==> Handle(s, r, f).1 == 200
    ensures r.Create? && f.guard ==> Handle(s, r, f) == (s, 500)
  {
    if s.accounts != map[] { assert s.accounts.Keys != {}; }
  }

  // ---------- passwords ----------

  predicate HasOneOf(p: string, chars: string) { exists i :: 0 <= i < |p| && p[i] in chars }

  /** A password is valid if and only if it has at least eight characters, among them an upper-case
      letter, a lower-case letter and a digit or special character. */
  lemma ValidPasswordIff(p: string)
    ensures ValidPassword(p) <==>
              && |p| >= 8 && HasOneOf(p, "ABCDEFGHIJKLMNOPQRSTUVWXYZ") && HasOneOf(p, "abcdefghijklmnopqrstuvwxyz")
              && (HasOneOf(p, "0123456789") || HasOneOf(p, "!@#$%^&*()_+-=[]{};':\"|,.<>?~"))
  {
    HasRange(p, 'A', "ABCDEFGHIJKLMNOPQRSTUVWXYZ");
    HasRange(p, 'a', "abcdefghijklmnopqrstuvwxyz");
    HasRange(p, '0', "0123456789");
  }

  lemma HasRange(p: string, first: char, chars: string)
    requires chars != [] && first as int + |chars| < 128
    requires forall k :: 0 <= k < |chars| ==> chars[k] as int == first as int + k
    ensures HasOneOf(p, chars) <==> exists i :: 0 <= i < |p| && first <= p[i] <= chars[|chars| - 1]
  {
    forall i | 0 <= i < |p| && first <= p[i] <= chars[|chars| - 1] ensures p[i] in chars {
      assert chars[p[i] as int - first as int] == p[i];
    }
  }

  /** The bearer is a token the server issued to the admin. */
  predicate ByAdmin(s: State, bearer: Option<Token>) {
    bearer.Some? && bearer.value in s.issued && bearer.value.role == AdminRole
  }

  /** The request creates u with password p, and nothing stands against it. */
  predicate Creates(s: State, r: Request, f: Faults, u: string, p: string) {
    && r.Create? && r.username == u && r.password == p
    && (s.accounts == map[] || ByAdmin(s, r.bearer))
    && u != "" && ValidPassword(p) && u !in s.accounts && !f.guard && !f.count && !f.hash && !f.write
  }

  /** The request changes the password of u to p, and nothing stands against it. */
  predicate Changes(s: State, r: Request, f: Faults, u: string, p: string) {
    && r.ChangePassword? && r.username == u && r.password == p
    && (ByAdmin(s, r.bearer) || (r.bearer.Some? && r.bearer.value in s.issued && r.bearer.value.username == u))
    && ValidPassword(p) && u in s.accounts && !f.fetch && !f.hash && !f.write
  }

  /** The request deletes u, and nothing stands against it. */
  predicate Deletes(s: State, r: Request, f: Faults, u: string) {
    && r.Delete? && r.username == u && ByAdmin(s, r.bearer)
    && u in s.accounts && s.accounts[u].role == UserRole && !f.fetch && !f.write
  }

  /** The password request r leaves u with, if it is about u and goes through. */
  ghost predicate Sets(s: State, r: Request, f: Faults, u: string, p: string) {
    Creates(s, r, f, u, p) || Changes(s, r, f, u, p)
  }

  ghost predicate Concerns(s: State, r: Request, f: Faults, u: string) {
    Deletes(s, r, f, u) || exists p :: Sets(s, r, f, u, p)
  }

  lemma StepOn(s: State, r: Request, f: Faults, u: string)
    ensures var t := Handle(s, r, f).0;
      && (forall p :: Sets(s, r, f, u, p) ==> u in t.accounts && t.accounts[u].password == p)
      && (Deletes(s, r, f, u) ==> u !in t.accounts)
      && (!Concerns(s, r, f, u) ==> (u in t.accounts <==> u in s.accounts) && (u in t.accounts ==> t.accounts[u] == s.accounts[u]))
  {
    if s.accounts != map[] { assert s.accounts.Keys != {}; }
    if !Concerns(s, r, f, u) && (r.Create? || r.ChangePassword?) {
      assert !Sets(s, r, f, u, r.password);
    }
  }

  /** j is the last request before i that concerns the account of u and goes through. */
  ghost predicate IsLast(run: seq<State>, requests: seq<Request>, faults: seq<Faults>, i: nat, u: string, j: nat)
    requires IsRun(run, requests, faults) && i < |run|
  {
    && j < i && Concerns(run[j], requests[j], faults[j], u)
    && forall k :: j < k < i ==> !Concerns(run[k], requests[k], faults[k], u)
  }

  /** A username exists at some point of a run if and only if the last request that concerned it
      and went through created it or changed its password, and its password is the one that
      request gave. */
  lemma {:induction false} PasswordIsTheLastOneSet(run: seq<State>, requests: seq<Request>, faults: seq<Faults>, i: nat, u: string)
    requires IsRun(run, requests, faults) && i < |run|
    ensures u in run[i].accounts ==> exists j: nat ::
              IsLast(run, requests, faults, i, u, j) && Sets(run[j], requests[j], faults[j], u, run[i].accounts[u].password)
    ensures u !in run[i].accounts ==>
              forall j: nat :: IsLast(run, requests, faults, i, u, j) ==> Deletes(run[j], requests[j], faults[j], u)
  {
    hide Handle, Sets, Deletes;
    if i > 0 {
      var s, r, f := run[i - 1], requests[i - 1], faults[i - 1];
      StepOn(s, r, f, u);
      PasswordIsTheLastOneSet(run, requests, faults, i - 1, u);
      if Concerns(s, r, f, u) {
        assert IsLast(run, requests, faults, i, u, i - 1);
      } else {
        assert forall j: nat :: IsLast(run, requests, faults, i, u, j) <==> IsLast(run, requests, faults, i - 1, u, j);
      }
    }
  }

  lemma {:induction false} PasswordsAreValid(run: seq<State>, requests: seq<Request>, faults: seq<Faults>, i: nat, u: string)
    requires IsRun(run, requests, faults) && i < |run|
    ensures u in run[i].accounts ==> u != "" && ValidPassword(run[i].accounts[u].password)
  {
    if i > 0 { PasswordsAreValid(run, requests, faults, i - 1, u); }
  }

  /** A token that was not in circulation before comes from a login with the password its account
      has at that moment. */
  lemma TokensNeedThePassword(run: seq<State>, requests: seq<Request>, faults: seq<Faults>, i: nat, k: Token)
    requires IsRun(run, requests, faults) && i < |requests| && k in run[i + 1].issued && k !in run[i].issued
    ensures k.username in run[i].accounts && k.role == run[i].accounts[k.username].role
    ensures requests[i] == Login(k.username, run[i].accounts[k.username].password)
  {
    RunInv(run, requests, faults, i);
  }

  /** A login with the right password, without faults, always gives the token. */
  lemma RightPasswordIsEnough(run: seq<State>, requests: seq<Request>, faults: seq<Faults>, i: nat, u: string)
    requires IsRun(run, requests, faults) && i < |requests| && u in run[i].accounts
    requires requests[i] == Login(u, run[i].accounts[u].password) && !faults[i].fetch && !faults[i].sign
    ensures Token(u, run[i].accounts[u].role) in run[i + 1].issued
  {
    RunInv(run, requests, faults, i);
    PasswordsAreValid(run, requests, faults, i, u);
  }
}
