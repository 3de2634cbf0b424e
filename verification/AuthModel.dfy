/** Accounts, sessions and throttling as the auth service changes them, one completed call at a time,
    and what holds over every run of calls. */
module AuthModel {
  import opened Redis
  import opened StateToken
  import T = Throttle
  import R = Runs

  datatype Account = Account(role: string, status: int, passwordHash: string, salt: string, deletedAt: int)

  /** `auths` holds the rows of account_auths: (type, identifier) to account id. `trace` is the log of the
      stores after every Redis command so far. */
  datatype State = State(store: Store, accounts: map<string, Account>, auths: map<(string, string), string>,
                         trace: seq<Store>)

  datatype Config = Config(limit: nat, refreshExpire: int, maxAttempts: int, lockDuration: int,
                           maxIPAttempts: int, ipLockDuration: int)

  predicate Sound(cfg: Config) {
    cfg.limit >= 1 && cfg.refreshExpire > 0 && cfg.lockDuration > 0 && cfg.ipLockDuration > 0
  }

  /** What a completed call did. `Rejected` covers every call that changed no account and no token. */
  datatype Call =
    | Registered(account: string, token: string)
    | LoggedIn(account: string, role: string, token: string, identifier: string, ip: string, at: int, ipAt: int)
    | WrongPassword(identifier: string, ip: string, at: int, ipAt: int)
    | Refreshed(old_: string, token: string, account: string, role: string)
    | TokenRevoked(token: string)
    | TokensRevoked(account: string)
    | PasswordChanged(account: string)
    | IdentifierChanged(account: string)
    | Validated(account: string, role: string)
    | Deleted(account: string)
    | Rejected

  // ---------------------------------------------------------------- throttling keys

  predicate IsIPKey(key: string) {
    "ip:" <= key
  }

  function IPKey(ip: string): string {
    "ip:" + ip
  }

  function MaxFor(cfg: Config, key: string): int {
    if IsIPKey(key) then cfg.maxIPAttempts else cfg.maxAttempts
  }

  function WindowFor(cfg: Config, key: string): int {
    if IsIPKey(key) then cfg.ipLockDuration else cfg.lockDuration
  }

  /** What a call does to one throttling key. */
  function StepFor(c: Call, key: string): T.Step {
    match c
    case WrongPassword(identifier, ip, at, ipAt) =>
      if key == identifier then T.Failure(at) else if ip != "" && key == IPKey(ip) then T.Failure(ipAt) else T.Quiet
    case LoggedIn(_, _, _, identifier, ip, at, ipAt) =>
      if key == identifier then T.Success(at) else if ip != "" && key == IPKey(ip) then T.Success(ipAt) else T.Quiet
    case _ => T.Quiet
  }

  ghost predicate Throttled(s: Store, s': Store, c: Call, cfg: Config) {
    forall key :: T.Stepped(s, s', key, StepFor(c, key), MaxFor(cfg, key), WindowFor(cfg, key))
  }

  lemma ThrottledWiden(s: Store, m: Store, m': Store, s': Store, c: Call, cfg: Config)
    requires T.SameThrottle(s, m) && Throttled(m, m', c, cfg) && T.SameThrottle(m', s')
    ensures Throttled(s, s', c, cfg)
  {
    forall key
      ensures T.Stepped(s, s', key, StepFor(c, key), MaxFor(cfg, key), WindowFor(cfg, key))
    {
      T.SteppedWiden(s, m, m', s', key, StepFor(c, key), MaxFor(cfg, key), WindowFor(cfg, key));
    }
  }

  lemma QuietThrottle(s: Store, s': Store, c: Call, cfg: Config)
    requires T.SameThrottle(s, s') && !c.LoggedIn? && !c.WrongPassword?
    ensures Throttled(s, s', c, cfg)
  {
  }

  // ---------------------------------------------------------------- one call

  ghost predicate Undeleted(a: State, account: string) {
    account in a.accounts && a.accounts[account].deletedAt == 0
  }

  /** No row of the database changed. */
  ghost predicate SameRows(a: State, a': State) {
    a'.accounts == a.accounts && a'.auths == a.auths
  }

  /** The calls that hand out a new token. */
  predicate Issues(c: Call) {
    c.Registered? || c.LoggedIn? || c.Refreshed?
  }

  /** The value the new token is stored with. */
  function IssuedValue(c: Call): string
    requires Issues(c)
  {
    ValueOf(c.account, if c.Registered? then "user" else c.role)
  }

  /** A new token for the account, in place of `old_` ("" for none). */
  ghost predicate Issued(a: State, a': State, old_: string, token: string, account: string, role: string, cfg: Config) {
    && token != "" && token !in a.store.issued && Plain(account) && account != ""
    && exists victims ::
         Renewed(a.store, a'.store, old_, token, account, ValueOf(account, role), cfg.refreshExpire, victims, cfg.limit)
  }

  ghost predicate Effect(a: State, c: Call, a': State, cfg: Config) {
    match c
    case Registered(account, token) =>
      && account !in a.accounts && account in a'.accounts && a'.accounts == a.accounts[account := a'.accounts[account]]
      && (forall k :: k in a'.auths ==> a'.auths[k] in a'.accounts)
      && Issued(a, a', "", token, account, "user", cfg)
    case LoggedIn(account, role, token, _, _, _, _) =>
      && Undeleted(a, account) && a.accounts[account].status == 1 && a.accounts[account].role == role
      && !IsIPKey(c.identifier)
      && SameRows(a, a')
      && Issued(a, a', "", token, account, role, cfg)
    case WrongPassword(identifier, _, _, _) =>
      Waited(a.store, a'.store) && SameRows(a, a') && !IsIPKey(identifier)
    case Refreshed(old_, token, account, role) =>
      && Alive(a.store, old_)
      && Owner(a.store.tokens[old_].value) == account && RoleOf(a.store.tokens[old_].value) == role
      && SameRows(a, a')
      && Issued(a, a', old_, token, account, role, cfg)
    case TokenRevoked(token) =>
      (if token == "" then Waited(a.store, a'.store) else Revoked(a.store, a'.store, token)) && SameRows(a, a')
    case TokensRevoked(account) =>
      RevokedAll(a.store, a'.store, account) && SameRows(a, a')
    case PasswordChanged(account) =>
      && Undeleted(a, account) && RevokedAll(a.store, a'.store, account) && a'.auths == a.auths
      && account in a'.accounts && a'.accounts[account].deletedAt == 0
      && a'.accounts == a.accounts[account := a'.accounts[account]]
    case IdentifierChanged(account) =>
      && Undeleted(a, account) && RevokedAll(a.store, a'.store, account)
      && a'.accounts == a.accounts && (forall k :: k in a'.auths ==> a'.auths[k] in a'.accounts)
    case Validated(account, _) =>
      Cleaned(a.store, a'.store, account) && Index(a'.store, account) != {} && SameRows(a, a')
    case Deleted(account) =>
      && Undeleted(a, account) && RevokedAll(a.store, a'.store, account)
      && account in a'.accounts && a'.accounts[account].deletedAt != 0
      && a'.accounts == a.accounts[account := a'.accounts[account]]
      && (forall k :: k in a'.auths ==> k in a.auths && a'.auths[k] == a.auths[k] && a.auths[k] != account)
    case Rejected =>
      (exists id :: Cleaned(a.store, a'.store, id)) && SameRows(a, a')
  }

  /** The stores logged during the call. */
  ghost predicate Logged(a: State, c: Call, a': State, cfg: Config) {
    if Issues(c) then TracedButOne(a.trace, a'.trace, c.token, cfg.limit) else Traced(a.trace, a'.trace, cfg.limit)
  }

  ghost predicate Next(a: State, c: Call, a': State, cfg: Config) {
    Effect(a, c, a', cfg) && Throttled(a.store, a'.store, c, cfg) && Logged(a, c, a', cfg)
  }

  // ---------------------------------------------------------------- the invariant

  /** The value of a token names an account and a role. */
  predicate Named(value: string) {
    Plain(Owner(value)) && Owner(value) != "" && value == ValueOf(Owner(value), RoleOf(value))
  }

  ghost predicate AllNamed(s: Store) {
    forall t :: t in s.tokens ==> Named(s.tokens[t].value)
  }

  ghost predicate Inv(a: State, cfg: Config) {
    && Valid(a.store, cfg.limit) && AllNamed(a.store)
    && (forall id :: id in a.accounts ==> Plain(id) && id != "")
    && (forall k :: k in a.auths ==> a.auths[k] in a.accounts)
    && (forall key :: T.CounterOk(a.store, key, MaxFor(cfg, key)))
  }

  lemma WaitedCleans(s: Store, s': Store)
    requires Waited(s, s') && Tidy(s)
    ensures Cleaned(s, s', ":")
  {
    assert forall i, t :: Indexed(s', i, t) <==> Indexed(s, i, t);
    assert ':' in ":" && !Plain(":");
  }

  lemma StoreKeeps(a: State, c: Call, a': State, cfg: Config)
    requires Sound(cfg) && Inv(a, cfg) && Effect(a, c, a', cfg)
    ensures Valid(a'.store, cfg.limit)
  {
    match c
    case Registered(account, token) => IssuedKeeps(a, a', "", token, account, "user", cfg);
    case LoggedIn(account, role, token, _, _, _, _) => IssuedKeeps(a, a', "", token, account, role, cfg);
    case WrongPassword(_, _, _, _) =>
      WaitedCleans(a.store, a'.store);
      CleanedKeeps(a.store, a'.store, ":", cfg.limit);
    case Refreshed(old_, token, account, role) => IssuedKeeps(a, a', old_, token, account, role, cfg);
    case TokenRevoked(token) =>
      if token == "" {
        WaitedCleans(a.store, a'.store);
        CleanedKeeps(a.store, a'.store, ":", cfg.limit);
      } else {
        RevokedKeeps(a.store, a'.store, token, cfg.limit);
      }
    case TokensRevoked(account) => RevokedAllKeeps(a.store, a'.store, account, cfg.limit);
    case PasswordChanged(account) => RevokedAllKeeps(a.store, a'.store, account, cfg.limit);
    case IdentifierChanged(account) => RevokedAllKeeps(a.store, a'.store, account, cfg.limit);
    case Validated(account, _) => CleanedKeeps(a.store, a'.store, account, cfg.limit);
    case Deleted(account) => RevokedAllKeeps(a.store, a'.store, account, cfg.limit);
    case Rejected =>
      var id :| Cleaned(a.store, a'.store, id);
      CleanedKeeps(a.store, a'.store, id, cfg.limit);
  }

  lemma IssuedKeeps(a: State, a': State, old_: string, token: string, account: string, role: string, cfg: Config)
    requires Valid(a.store, cfg.limit) && Issued(a, a', old_, token, account, role, cfg)
    ensures Valid(a'.store, cfg.limit)
  {
    var value := ValueOf(account, role);
    var victims :| Renewed(a.store, a'.store, old_, token, account, value, cfg.refreshExpire, victims, cfg.limit);
    SplitValue(account, role);
    RenewedKeeps(a.store, a'.store, old_, token, account, value, cfg.refreshExpire, victims, cfg.limit);
  }

  /** Tokens that are not new keep their value. */
  lemma TokensCarryOver(a: State, c: Call, a': State, cfg: Config)
    requires Inv(a, cfg) && Effect(a, c, a', cfg)
    ensures forall t :: t in a'.store.tokens ==>
      (t in a.store.tokens && a'.store.tokens[t] == a.store.tokens[t]) ||
      (Issues(c) && t == c.token && t !in a.store.issued && a'.store.tokens[t].value == IssuedValue(c))
    ensures a.store.now <= a'.store.now && a.store.issued <= a'.store.issued
  {
  }

  lemma NextKeeps(a: State, c: Call, a': State, cfg: Config)
    requires Sound(cfg) && Inv(a, cfg) && Next(a, c, a', cfg)
    ensures Inv(a', cfg)
  {
    StoreKeeps(a, c, a', cfg);
    TokensCarryOver(a, c, a', cfg);
    NamedKeeps(a, c, a', cfg);
    forall key
      ensures T.CounterOk(a'.store, key, MaxFor(cfg, key))
    {
      T.SteppedKeeps(a.store, a'.store, key, StepFor(c, key), MaxFor(cfg, key), WindowFor(cfg, key));
    }
  }

  lemma NamedKeeps(a: State, c: Call, a': State, cfg: Config)
    requires Inv(a, cfg) && Effect(a, c, a', cfg)
    ensures AllNamed(a'.store)
  {
    TokensCarryOver(a, c, a', cfg);
    if Issues(c) {
      SplitValue(c.account, if c.Registered? then "user" else c.role);
    }
  }

  // ---------------------------------------------------------------- runs

  ghost function NextUnder(cfg: Config): (State, Call, State) -> bool {
    (a, c, a') => Next(a, c, a', cfg)
  }

  ghost predicate IsRun(states: seq<State>, calls: seq<Call>, cfg: Config) {
    R.IsRun(states, calls, NextUnder(cfg))
  }

  /** In every reachable state live tokens are indexed, no account has more than the limit of them, no index
      has more than limit + 1 entries, every token names an account, and every counter is below its limit. */
  lemma RunInvariant(states: seq<State>, calls: seq<Call>, cfg: Config, i: nat)
    requires Sound(cfg) && IsRun(states, calls, cfg) && Inv(states[0], cfg) && i <= |calls|
    ensures Inv(states[i], cfg)
  {
    var inv := (a: State) => Inv(a, cfg);
    var all := (c: Call) => true;
    forall a, c, a' | inv(a) && NextUnder(cfg)(a, c, a')
      ensures inv(a')
    {
      NextKeeps(a, c, a', cfg);
    }
    R.HoldsAt(states, calls, NextUnder(cfg), inv, all, 0, i);
  }

  lemma RunStep(states: seq<State>, calls: seq<Call>, cfg: Config, i: nat)
    requires IsRun(states, calls, cfg) && i < |calls|
    ensures Next(states[i], calls[i], states[i + 1], cfg)
  {
    assert R.Linked(states, calls, NextUnder(cfg), i);
  }

  lemma RunLogged(states: seq<State>, calls: seq<Call>, cfg: Config, i: nat)
    requires IsRun(states, calls, cfg) && i < |calls|
    ensures Logged(states[i], calls[i], states[i + 1], cfg) && states[i].trace <= states[i + 1].trace
  {
    RunStep(states, calls, cfg, i);
  }

  /** RefreshToken or ValidateToken succeeding for the account. */
  predicate Accepts(c: Call, account: string) {
    (c.Refreshed? && c.account == account) || (c.Validated? && c.account == account)
  }

  ghost predicate SignedOut(a: State, account: string) {
    account in a.accounts && Live(a.store, account) == {} && (forall t :: !Indexed(a.store, account, t))
  }

  ghost predicate Gone(a: State, account: string) {
    SignedOut(a, account) && a.accounts[account].deletedAt != 0
  }

  lemma AcceptsSignedIn(a: State, c: Call, a': State, account: string, cfg: Config)
    requires Inv(a, cfg) && Effect(a, c, a', cfg) && Accepts(c, account)
    ensures !SignedOut(a, account)
  {
    if c.Refreshed? {
      assert c.old_ in Live(a.store, account);
    } else {
      var t :| t in Index(a'.store, account);
      assert Indexed(a'.store, account, t);
      assert Indexed(a.store, account, t);
    }
  }

  lemma SignedOutStays(a: State, c: Call, a': State, account: string, cfg: Config)
    requires Inv(a, cfg) && Next(a, c, a', cfg) && SignedOut(a, account)
    ensures !Accepts(c, account)
    ensures !(c.LoggedIn? && c.account == account) ==> SignedOut(a', account)
  {
    if Accepts(c, account) {
      AcceptsSignedIn(a, c, a', account, cfg);
    }
    if !(c.LoggedIn? && c.account == account) {
      NoNewToken(a, c, a', account, cfg);
    }
  }

  lemma GoneStays(a: State, c: Call, a': State, account: string, cfg: Config)
    requires Inv(a, cfg) && Next(a, c, a', cfg) && Gone(a, account)
    ensures !Accepts(c, account) && !(c.LoggedIn? && c.account == account) && Gone(a', account)
  {
    assert !(c.LoggedIn? && c.account == account);
    SignedOutStays(a, c, a', account, cfg);
    NoNewToken(a, c, a', account, cfg);
  }

  lemma NoNewToken(a: State, c: Call, a': State, account: string, cfg: Config)
    requires Inv(a, cfg) && Next(a, c, a', cfg) && SignedOut(a, account) && !Accepts(c, account)
    requires !(c.LoggedIn? && c.account == account)
    ensures account in a'.accounts && Live(a'.store, account) == {} && (forall t :: !Indexed(a'.store, account, t))
    ensures a.accounts[account].deletedAt != 0 ==> a'.accounts[account].deletedAt != 0
  {
    forall t
      ensures !Indexed(a'.store, account, t)
    {
      assert !Indexed(a.store, account, t);
    }
    TokensCarryOver(a, c, a', cfg);
    if Issues(c) {
      SplitValue(c.account, if c.Registered? then "user" else c.role);
    }
    forall t
      ensures t !in Live(a'.store, account)
    {
      assert t !in Live(a.store, account);
    }
  }

  ghost function SignedOutInv(account: string, cfg: Config): State -> bool {
    a => Inv(a, cfg) && SignedOut(a, account)
  }

  function NotLogin(account: string): Call -> bool {
    (c: Call) => !(c.LoggedIn? && c.account == account)
  }

  lemma SignedOutKept(account: string, cfg: Config)
    requires Sound(cfg)
    ensures R.Keeps(SignedOutInv(account, cfg), NotLogin(account), NextUnder(cfg))
  {
    forall a, c, a' | SignedOutInv(account, cfg)(a) && NotLogin(account)(c) && NextUnder(cfg)(a, c, a')
      ensures SignedOutInv(account, cfg)(a')
    {
      NextKeeps(a, c, a', cfg);
      SignedOutStays(a, c, a', account, cfg);
    }
  }

  ghost function GoneInv(account: string, cfg: Config): State -> bool {
    a => Inv(a, cfg) && Gone(a, account)
  }

  function AnyCall(): Call -> bool {
    c => true
  }

  lemma GoneKept(account: string, cfg: Config)
    requires Sound(cfg)
    ensures R.Keeps(GoneInv(account, cfg), AnyCall(), NextUnder(cfg))
  {
    forall a, c, a' | GoneInv(account, cfg)(a) && NextUnder(cfg)(a, c, a')
      ensures GoneInv(account, cfg)(a')
    {
      NextKeeps(a, c, a', cfg);
      GoneStays(a, c, a', account, cfg);
    }
  }

  /** The state right after a call that revoked every token of the account. */
  lemma SignedOutAfter(states: seq<State>, calls: seq<Call>, cfg: Config, account: string, i: nat)
    requires Sound(cfg) && IsRun(states, calls, cfg) && Inv(states[0], cfg) && i < |calls|
    requires || calls[i] == PasswordChanged(account) || calls[i] == IdentifierChanged(account)
             || calls[i] == Deleted(account) || (calls[i] == TokensRevoked(account) && account in states[i].accounts)
    ensures SignedOutInv(account, cfg)(states[i + 1])
    ensures calls[i].Deleted? ==> GoneInv(account, cfg)(states[i + 1])
  {
    RunInvariant(states, calls, cfg, i);
    RunInvariant(states, calls, cfg, i + 1);
    RunStep(states, calls, cfg, i);
    AllRevokedSignsOut(states[i], calls[i], states[i + 1], account, cfg);
  }

  lemma NotAcceptedAt(states: seq<State>, calls: seq<Call>, cfg: Config, account: string, j: nat)
    requires IsRun(states, calls, cfg) && j < |calls| && SignedOutInv(account, cfg)(states[j])
    ensures !Accepts(calls[j], account)
    ensures Gone(states[j], account) ==> !(calls[j].LoggedIn? && calls[j].account == account)
  {
    RunStep(states, calls, cfg, j);
    SignedOutStays(states[j], calls[j], states[j + 1], account, cfg);
  }

  /** After a password or identifier change, or after all tokens were revoked, neither RefreshToken nor
      ValidateToken succeeds for the account until it logs in again. */
  lemma SignedOutUntilLogin(states: seq<State>, calls: seq<Call>, cfg: Config, account: string, i: nat, j: nat)
    requires Sound(cfg) && IsRun(states, calls, cfg) && Inv(states[0], cfg) && i < j < |calls|
    requires calls[i] == PasswordChanged(account) || calls[i] == IdentifierChanged(account)
          || (calls[i] == TokensRevoked(account) && account in states[i].accounts)
    requires forall k :: i < k < j && calls[k].LoggedIn? ==> calls[k].account != account
    ensures !Accepts(calls[j], account)
  {
    SignedOutKept(account, cfg);
    SignedOutAfter(states, calls, cfg, account, i);
    R.HoldsAt(states, calls, NextUnder(cfg), SignedOutInv(account, cfg), NotLogin(account), i + 1, j);
    NotAcceptedAt(states, calls, cfg, account, j);
  }

  lemma AllRevokedSignsOut(a: State, c: Call, a': State, account: string, cfg: Config)
    requires Inv(a, cfg) && Effect(a, c, a', cfg)
    requires c == PasswordChanged(account) || c == IdentifierChanged(account) || c == Deleted(account)
          || (c == TokensRevoked(account) && account in a.accounts)
    ensures SignedOut(a', account) && (c.Deleted? ==> Gone(a', account))
  {
    RevokedAllKeeps(a.store, a'.store, account, cfg.limit);
  }

  /** Once DeleteAccount has succeeded no later call accepts a token of the account, and no login to it
      succeeds. */
  lemma DeletedForever(states: seq<State>, calls: seq<Call>, cfg: Config, account: string, i: nat, j: nat)
    requires Sound(cfg) && IsRun(states, calls, cfg) && Inv(states[0], cfg) && i < j < |calls|
    requires calls[i] == Deleted(account)
    ensures !Accepts(calls[j], account) && !(calls[j].LoggedIn? && calls[j].account == account)
  {
    GoneKept(account, cfg);
    SignedOutAfter(states, calls, cfg, account, i);
    R.HoldsAt(states, calls, NextUnder(cfg), GoneInv(account, cfg), AnyCall(), i + 1, j);
    NotAcceptedAt(states, calls, cfg, account, j);
  }

  /** Stored once, and not live any more. */
  ghost predicate Dead(a: State, token: string) {
    token in a.store.issued && !Alive(a.store, token)
  }

  /** A token once rotated, revoked, evicted or expired is never accepted again. */
  lemma DeadForever(states: seq<State>, calls: seq<Call>, cfg: Config, token: string, i: nat, j: nat)
    requires Sound(cfg) && IsRun(states, calls, cfg) && Inv(states[0], cfg) && i <= j < |calls|
    requires Dead(states[i], token)
    ensures Dead(states[j], token) && !(calls[j].Refreshed? && calls[j].old_ == token)
  {
    var inv := (a: State) => Inv(a, cfg) && Dead(a, token);
    var all := (c: Call) => true;
    forall a, c, a' | inv(a) && NextUnder(cfg)(a, c, a')
      ensures inv(a')
    {
      NextKeeps(a, c, a', cfg);
      TokensCarryOver(a, c, a', cfg);
    }
    RunInvariant(states, calls, cfg, i);
    R.HoldsAt(states, calls, NextUnder(cfg), inv, all, i, j);
    RunStep(states, calls, cfg, j);
  }

  /** What makes a token dead: its rotation, its revocation, its eviction by any call that removes it, and the
      end of all sessions of its account. */
  lemma CallsThatKill(a: State, c: Call, a': State, cfg: Config, token: string)
    requires Inv(a, cfg) && Next(a, c, a', cfg) && token in a.store.issued
    requires || (c.Refreshed? && c.old_ == token) || (c == TokenRevoked(token) && token != "")
             || (token in a.store.tokens && token !in a'.store.tokens)
             || ((c.TokensRevoked? || c.PasswordChanged? || c.IdentifierChanged? || c.Deleted?) &&
                 token in Live(a.store, c.account))
    ensures Dead(a', token)
  {
    TokensCarryOver(a, c, a', cfg);
    if token in a'.store.tokens && !c.Refreshed? && !c.TokenRevoked? {
      EndedWithAccount(a.store, a'.store, c.account, token);
    }
  }

  lemma EndedWithAccount(s: Store, s': Store, account: string, token: string)
    requires RevokedAll(s, s', account) && token in Live(s, account)
    ensures !Alive(s', token)
  {
  }

  /** Besides `old_` only the victims are gone: at most one, only at the limit, of least remaining time. */
  ghost predicate SparesOthers(s: Store, s': Store, old_: string, account: string, victims: set<string>, limit: nat) {
    && |victims| <= 1
    && (victims != {} ==> |Live(s, account)| >= limit)
    && (forall v :: v in victims ==> LeastTTL(s, s', account, v))
    && (forall t :: t in s.tokens && t != old_ && t !in victims ==> t in s'.tokens && s'.tokens[t] == s.tokens[t])
  }

  /** A rotation stores the new token with the value of the old one and kills the old one; of the account's other
      live tokens it takes away at most one, only at the limit, of least remaining time; tokens and indexes of
      other accounts are unchanged. */
  lemma Rotation(a: State, c: Call, a': State, cfg: Config)
    requires Sound(cfg) && Inv(a, cfg) && Next(a, c, a', cfg) && c.Refreshed?
    ensures c.old_ in a.store.tokens && c.token in a'.store.tokens
    ensures a'.store.tokens[c.token].value == a.store.tokens[c.old_].value == ValueOf(c.account, c.role)
    ensures a'.store.now < a.store.now + cfg.refreshExpire ==> Alive(a'.store, c.token)
    ensures !Alive(a'.store, c.old_)
    ensures exists victims :: SparesOthers(a.store, a'.store, c.old_, c.account, victims, cfg.limit)
    ensures forall t :: t in a.store.tokens && OwnerOf(a.store, t) != c.account ==>
              t in a'.store.tokens && a'.store.tokens[t] == a.store.tokens[t]
    ensures forall id, t :: Plain(id) && id != c.account ==> (Indexed(a'.store, id, t) <==> Indexed(a.store, id, t))
  {
    var victims := RotationVictims(a, c, a', cfg);
    RotationToken(a, c, a', cfg, victims);
    RotationFrame(a, c, a', cfg, victims);
  }

  lemma RotationToken(a: State, c: Call, a': State, cfg: Config, victims: set<string>)
    requires c.Refreshed? && c.old_ in a.store.tokens && Named(a.store.tokens[c.old_].value) && c.token != c.old_
    requires Owner(a.store.tokens[c.old_].value) == c.account && RoleOf(a.store.tokens[c.old_].value) == c.role
    requires Renewed(a.store, a'.store, c.old_, c.token, c.account, ValueOf(c.account, c.role), cfg.refreshExpire,
                     victims, cfg.limit)
    ensures c.token in a'.store.tokens
    ensures a'.store.tokens[c.token].value == a.store.tokens[c.old_].value == ValueOf(c.account, c.role)
    ensures a'.store.now < a.store.now + cfg.refreshExpire ==> Alive(a'.store, c.token)
    ensures !Alive(a'.store, c.old_)
  {
  }

  lemma RotationFrame(a: State, c: Call, a': State, cfg: Config, victims: set<string>)
    requires c.Refreshed? && Valid(a.store, cfg.limit) && c.old_ in a.store.tokens && c.token !in a.store.issued
    requires Renewed(a.store, a'.store, c.old_, c.token, c.account, ValueOf(c.account, c.role), cfg.refreshExpire,
                     victims, cfg.limit)
    requires forall v :: v in victims ==> v in a.store.tokens && OwnerOf(a.store, v) == c.account
    requires OwnerOf(a.store, c.old_) == c.account
    ensures forall t :: t in a.store.tokens && OwnerOf(a.store, t) != c.account ==>
              t in a'.store.tokens && a'.store.tokens[t] == a.store.tokens[t]
    ensures forall id, t :: Plain(id) && id != c.account ==> (Indexed(a'.store, id, t) <==> Indexed(a.store, id, t))
    ensures SparesOthers(a.store, a'.store, c.old_, c.account, victims, cfg.limit)
  {
  }

  lemma RotationVictims(a: State, c: Call, a': State, cfg: Config) returns (victims: set<string>)
    requires Inv(a, cfg) && Effect(a, c, a', cfg) && c.Refreshed?
    ensures Renewed(a.store, a'.store, c.old_, c.token, c.account, ValueOf(c.account, c.role), cfg.refreshExpire,
                    victims, cfg.limit)
    ensures forall v :: v in victims ==> v in a.store.tokens && OwnerOf(a.store, v) == c.account
    ensures OwnerOf(a.store, c.old_) == c.account
  {
    victims :| Renewed(a.store, a'.store, c.old_, c.token, c.account, ValueOf(c.account, c.role), cfg.refreshExpire,
                       victims, cfg.limit);
    forall v | v in victims
      ensures v in a.store.tokens && OwnerOf(a.store, v) == c.account
    {
      assert LeastTTL(a.store, a'.store, c.account, v);
      assert Indexed(a.store, c.account, v);
    }
  }

  /** Every call that hands out a token leaves it stored, with the value of the account and role and with the
      configured time to live. */
  lemma IssuedIsStored(a: State, c: Call, a': State, cfg: Config)
    requires Next(a, c, a', cfg) && Issues(c)
    ensures c.token in a'.store.tokens
    ensures a'.store.tokens[c.token].value == c.account + ":" + (if c.Registered? then "user" else c.role)
    ensures a.store.now + cfg.refreshExpire <= a'.store.tokens[c.token].expires <= a'.store.now + cfg.refreshExpire
    ensures Indexed(a'.store, c.account, c.token)
  {
  }

  // ---------------------------------------------------------------- chains of rotations

  /** Where a token's chain of rotations began: with a call of the run, or with a token that was there before. */
  datatype Root = Began(call: Call) | There(token: string)

  /** Following each rotation back from the new token to the old one. */
  function RootOf(calls: seq<Call>, token: string): Root {
    if calls == [] then There(token)
    else
      var last, before := calls[|calls| - 1], calls[..|calls| - 1];
      if Issues(last) && last.token == token then
        if last.Refreshed? then RootOf(before, last.old_) else Began(last)
      else RootOf(before, token)
  }

  /** What the root of a chain says its tokens' value is. */
  ghost predicate FromRoot(value: string, root: Root, start: Store) {
    match root
    case Began(call) => Issues(call) && !call.Refreshed? && value == IssuedValue(call)
    case There(token) => token in start.tokens && value == start.tokens[token].value
  }

  /** The tokens after a call: the new one with its value, the others as they were. A rotation stores the value of
      the old token. */
  lemma RunTokens(states: seq<State>, calls: seq<Call>, cfg: Config, i: nat)
    requires Sound(cfg) && IsRun(states, calls, cfg) && Inv(states[0], cfg) && i < |calls|
    ensures var a, c, a' := states[i].store, calls[i], states[i + 1].store;
            && (forall t :: t in a'.tokens && Issues(c) && t == c.token ==> a'.tokens[t].value == IssuedValue(c))
            && (forall t :: t in a'.tokens && !(Issues(c) && t == c.token) ==>
                  t in a.tokens && a'.tokens[t] == a.tokens[t])
            && (c.Refreshed? ==> c.old_ in a.tokens && a.tokens[c.old_].value == IssuedValue(c))
  {
    var a, c, a' := states[i], calls[i], states[i + 1];
    RunInvariant(states, calls, cfg, i);
    RunStep(states, calls, cfg, i);
    TokensCarryOver(a, c, a', cfg);
    if c.Refreshed? {
      assert Named(a.store.tokens[c.old_].value);
    }
    forall t | t in a'.store.tokens && Issues(c) && t == c.token
      ensures a'.store.tokens[t].value == IssuedValue(c)
    {
      assert t in a.store.tokens ==> t in a.store.issued;
    }
  }

  /** However long its chain of rotations, a stored token carries the account and role of the registration or
      login that began the chain. */
  lemma {:induction false} ChainCarriesRoot(states: seq<State>, calls: seq<Call>, cfg: Config, i: nat, token: string)
    requires Sound(cfg) && IsRun(states, calls, cfg) && Inv(states[0], cfg) && i <= |calls|
    requires token in states[i].store.tokens
    ensures FromRoot(states[i].store.tokens[token].value, RootOf(calls[..i], token), states[0].store)
    decreases i
  {
    if i > 0 {
      var a, c, a' := states[i - 1], calls[i - 1], states[i];
      RunTokens(states, calls, cfg, i - 1);
      assert calls[..i][..i - 1] == calls[..i - 1] && calls[..i][i - 1] == c;
      if Issues(c) && c.token == token {
        if c.Refreshed? {
          ChainCarriesRoot(states, calls, cfg, i - 1, c.old_);
        }
      } else {
        ChainCarriesRoot(states, calls, cfg, i - 1, token);
      }
    }
  }

  // ---------------------------------------------------------------- every store between two commands

  function IssuingCalls(calls: seq<Call>): nat {
    if calls == [] then 0
    else IssuingCalls(calls[..|calls| - 1]) + if Issues(calls[|calls| - 1]) then 1 else 0
  }

  /** How many of the stores logged from position `from` miss an index entry of a live token. */
  ghost function Missing(trace: seq<Store>, from: nat): nat {
    if |trace| <= from then 0
    else Missing(trace[..|trace| - 1], from) + if Covered(trace[|trace| - 1], {}) then 0 else 1
  }

  /** Over a whole run of calls, every store between any two Redis commands keeps both bounds, and as many of
      them miss an index entry as calls handed out a token. */
  lemma {:induction false} LoggedStores(states: seq<State>, calls: seq<Call>, cfg: Config, i: nat)
    requires IsRun(states, calls, cfg) && i <= |calls|
    ensures states[0].trace <= states[i].trace
    ensures forall k :: |states[0].trace| <= k < |states[i].trace| ==> Sized(states[i].trace[k], cfg.limit)
    ensures Missing(states[i].trace, |states[0].trace|) == IssuingCalls(calls[..i])
    decreases i
  {
    var from := |states[0].trace|;
    if i > 0 {
      var a, c, a' := states[i - 1], calls[i - 1], states[i];
      LoggedStores(states, calls, cfg, i - 1);
      RunLogged(states, calls, cfg, i - 1);
      assert calls[..i][..i - 1] == calls[..i - 1] && calls[..i][i - 1] == c;
      if Issues(c) {
        var j :| MissesOnly(a.trace, a'.trace, c.token, j);
        MissingOne(a.trace, a'.trace, from, j);
      } else {
        MissingNone(a.trace, a'.trace, from);
      }
    }
  }

  lemma {:induction false} MissingNone(before: seq<Store>, after: seq<Store>, from: nat)
    requires before <= after && from <= |before|
    requires forall k :: |before| <= k < |after| ==> Covered(after[k], {})
    ensures Missing(after, from) == Missing(before, from)
    decreases |after|
  {
    if |before| < |after| {
      MissingNone(before, after[..|after| - 1], from);
    } else {
      assert before == after;
    }
  }

  lemma MissingOne(before: seq<Store>, after: seq<Store>, from: nat, j: nat)
    requires before <= after && from <= |before| <= j < |after| && !Covered(after[j], {})
    requires forall k :: |before| <= k < |after| && k != j ==> Covered(after[k], {})
    ensures Missing(after, from) == Missing(before, from) + 1
  {
    MissingNone(before, after[..j], from);
    assert after[..j + 1][..j] == after[..j];
    MissingNone(after[..j + 1], after, from);
  }

  /** A store that misses an entry lies within a call that hands out a token, and the entry is that token's. */
  lemma {:induction false} MissingWithin(states: seq<State>, calls: seq<Call>, cfg: Config, i: nat, k: nat)
    returns (n: nat)
    requires IsRun(states, calls, cfg) && i <= |calls|
    requires |states[0].trace| <= k < |states[i].trace| && !Covered(states[i].trace[k], {})
    ensures n < i && Issues(calls[n]) && |states[n].trace| <= k < |states[n + 1].trace|
    ensures states[n + 1].trace[k] == states[i].trace[k] && Covered(states[i].trace[k], {calls[n].token})
    decreases i
  {
    n := i - 1;
    var a, c, a' := states[n], calls[n], states[i];
    RunLogged(states, calls, cfg, n);
    if k < |a.trace| {
      assert a'.trace[k] == a.trace[k];
      n := MissingWithin(states, calls, cfg, n, k);
    }
  }

  // ---------------------------------------------------------------- the throttle over runs

  /** What a wrong password does to the counters and locks of its identifier and its address, in terms of the
      configuration. */
  lemma WrongPasswordCounts(s: Store, s': Store, c: Call, cfg: Config)
    requires Throttled(s, s', c, cfg) && c.WrongPassword? && !("ip:" <= c.identifier)
    ensures T.Counted(s, s', c.identifier, c.at, cfg.maxAttempts, cfg.lockDuration)
    ensures c.ip != "" ==> T.Counted(s, s', "ip:" + c.ip, c.ipAt, cfg.maxIPAttempts, cfg.ipLockDuration)
    ensures forall key :: key != c.identifier && (c.ip == "" || key != "ip:" + c.ip) ==> T.SameKey(s, s', key)
  {
    var id := c.identifier;
    assert T.Stepped(s, s', id, StepFor(c, id), MaxFor(cfg, id), WindowFor(cfg, id));
    if c.ip != "" {
      var key := "ip:" + c.ip;
      assert T.Stepped(s, s', key, StepFor(c, key), MaxFor(cfg, key), WindowFor(cfg, key));
    }
    forall key | key != c.identifier && (c.ip == "" || key != "ip:" + c.ip)
      ensures T.SameKey(s, s', key)
    {
      assert T.Stepped(s, s', key, StepFor(c, key), MaxFor(cfg, key), WindowFor(cfg, key));
    }
  }

  /** A right password clears the counters and locks of its identifier and its address. */
  lemma LoginClears(s: Store, s': Store, c: Call, cfg: Config)
    requires Throttled(s, s', c, cfg) && c.LoggedIn? && !("ip:" <= c.identifier)
    ensures c.identifier !in s'.counters && c.identifier !in s'.locks
    ensures c.ip != "" ==> "ip:" + c.ip !in s'.counters && "ip:" + c.ip !in s'.locks
  {
    var id := c.identifier;
    assert T.Stepped(s, s', id, StepFor(c, id), MaxFor(cfg, id), WindowFor(cfg, id));
    if c.ip != "" {
      var key := "ip:" + c.ip;
      assert T.Stepped(s, s', key, StepFor(c, key), MaxFor(cfg, key), WindowFor(cfg, key));
    }
  }

  /** Different addresses have different keys, and none of them is an identifier's. */
  lemma KeysDiffer(ip: string, other: string, identifier: string)
    requires ip != other && !("ip:" <= identifier)
    ensures IPKey(ip) != IPKey(other) && IPKey(ip) != identifier
  {
    assert IPKey(ip)[3..] == ip && IPKey(other)[3..] == other;
  }

  /** The bound for one key, in the steps of the throttle. */
  lemma KeyIsThrottled(states: seq<State>, calls: seq<Call>, cfg: Config, key: string, from: int)
    requires Sound(cfg) && IsRun(states, calls, cfg) && Inv(states[0], cfg)
    requires T.NoSuccessWithin(StepsOf(calls, key), from, WindowFor(cfg, key))
    ensures T.FailuresWithin(StepsOf(calls, key), from, WindowFor(cfg, key)) <= T.Bound(MaxFor(cfg, key))
  {
    var stores := seq(|states|, i requires 0 <= i < |states| => states[i].store);
    forall i | 0 <= i < |calls|
      ensures R.Linked(stores, StepsOf(calls, key), T.SteppedUnder(key, MaxFor(cfg, key), WindowFor(cfg, key)), i)
    {
      ThrottledAt(states, calls, cfg, key, i);
    }
    T.SlidingBound(stores, StepsOf(calls, key), key, MaxFor(cfg, key), WindowFor(cfg, key));
  }

  lemma ThrottledAt(states: seq<State>, calls: seq<Call>, cfg: Config, key: string, i: nat)
    requires IsRun(states, calls, cfg) && i < |calls|
    ensures T.Stepped(states[i].store, states[i + 1].store, key, StepFor(calls[i], key), MaxFor(cfg, key),
                      WindowFor(cfg, key))
  {
    RunStep(states, calls, cfg, i);
  }

  function StepsOf(calls: seq<Call>, key: string): seq<T.Step> {
    seq(|calls|, i requires 0 <= i < |calls| => StepFor(calls[i], key))
  }

  predicate During(at: int, from: int, length: int) {
    from <= at < from + length
  }

  /** Wrong passwords for an identifier within an interval. */
  function WrongFor(calls: seq<Call>, identifier: string, from: int, length: int): nat {
    if calls == [] then 0
    else
      var c := calls[|calls| - 1];
      WrongFor(calls[..|calls| - 1], identifier, from, length) +
      if c.WrongPassword? && c.identifier == identifier && During(c.at, from, length) then 1 else 0
  }

  /** Wrong passwords from an address within an interval. */
  function WrongFrom(calls: seq<Call>, ip: string, from: int, length: int): nat {
    if calls == [] then 0
    else
      var c := calls[|calls| - 1];
      WrongFrom(calls[..|calls| - 1], ip, from, length) +
      if c.WrongPassword? && c.ip == ip && During(c.ipAt, from, length) then 1 else 0
  }

  /** No login call of the list has an identifier that looks like an address key. */
  ghost predicate PlainIdentifiers(calls: seq<Call>) {
    forall i :: 0 <= i < |calls| && (calls[i].WrongPassword? || calls[i].LoggedIn?) ==> !IsIPKey(calls[i].identifier)
  }

  lemma PlainCalls(states: seq<State>, calls: seq<Call>, cfg: Config)
    requires IsRun(states, calls, cfg)
    ensures PlainIdentifiers(calls)
  {
    forall i | 0 <= i < |calls| && (calls[i].WrongPassword? || calls[i].LoggedIn?)
      ensures !IsIPKey(calls[i].identifier)
    {
      RunStep(states, calls, cfg, i);
    }
  }

  lemma {:induction false} WrongForSteps(calls: seq<Call>, identifier: string, from: int, length: int)
    requires !IsIPKey(identifier)
    ensures T.FailuresWithin(StepsOf(calls, identifier), from, length) == WrongFor(calls, identifier, from, length)
    decreases |calls|
  {
    if calls != [] {
      var n := |calls| - 1;
      WrongForSteps(calls[..n], identifier, from, length);
      assert StepsOf(calls, identifier)[..n] == StepsOf(calls[..n], identifier);
    }
  }

  lemma {:induction false} WrongFromSteps(calls: seq<Call>, ip: string, from: int, length: int)
    requires ip != "" && PlainIdentifiers(calls)
    ensures T.FailuresWithin(StepsOf(calls, IPKey(ip)), from, length) == WrongFrom(calls, ip, from, length)
    decreases |calls|
  {
    if calls != [] {
      var n := |calls| - 1;
      WrongFromSteps(calls[..n], ip, from, length);
      assert StepsOf(calls, IPKey(ip))[..n] == StepsOf(calls[..n], IPKey(ip));
      if calls[n].WrongPassword? && calls[n].ip != ip {
        KeysDiffer(ip, calls[n].ip, calls[n].identifier);
      }
    }
  }

  /** In every run of the service: for every identifier, in any interval as long as LoginLockDuration and without
      a login for it, at most 2·MaxLoginAttempts − 2 wrong passwords are answered; one if MaxLoginAttempts is
      below two. */
  lemma LoginsAreThrottled(states: seq<State>, calls: seq<Call>, cfg: Config, identifier: string, from: int)
    requires Sound(cfg) && IsRun(states, calls, cfg) && Inv(states[0], cfg) && !("ip:" <= identifier)
    requires forall i :: 0 <= i < |calls| && calls[i].LoggedIn? && calls[i].identifier == identifier ==>
               !(from <= calls[i].at < from + cfg.lockDuration)
    ensures WrongFor(calls, identifier, from, cfg.lockDuration)
         <= if cfg.maxAttempts >= 2 then 2 * cfg.maxAttempts - 2 else 1
  {
    KeyIsThrottled(states, calls, cfg, identifier, from);
    WrongForSteps(calls, identifier, from, cfg.lockDuration);
  }

  /** The same for every address, with MaxIPLoginAttempts and IPLoginLockDuration. */
  lemma AddressesAreThrottled(states: seq<State>, calls: seq<Call>, cfg: Config, ip: string, from: int)
    requires Sound(cfg) && IsRun(states, calls, cfg) && Inv(states[0], cfg) && ip != ""
    requires forall i :: 0 <= i < |calls| && calls[i].LoggedIn? && calls[i].ip == ip ==>
               !(from <= calls[i].ipAt < from + cfg.ipLockDuration)
    ensures WrongFrom(calls, ip, from, cfg.ipLockDuration)
         <= if cfg.maxIPAttempts >= 2 then 2 * cfg.maxIPAttempts - 2 else 1
  {
    PlainCalls(states, calls, cfg);
    var key := IPKey(ip);
    forall i | 0 <= i < |calls| && StepsOf(calls, key)[i].Success?
      ensures !T.Within(StepsOf(calls, key)[i].at, from, cfg.ipLockDuration)
    {
      if calls[i].ip != ip {
        KeysDiffer(ip, calls[i].ip, calls[i].identifier);
      }
    }
    KeyIsThrottled(states, calls, cfg, key, from);
    WrongFromSteps(calls, ip, from, cfg.ipLockDuration);
  }
}
