/** The calls of apps/personal-auth/pkg/service/auth.go. Each method leaves a ghost record of what it
    did, and is proved to be the step that record describes. JWTs, hashing and random salts are opaque:
    a new token comes in as a hash never stored before, an access token as its parsed claims. */
module AuthService {
  import opened Options
  import opened Redis
  import opened StateToken
  import opened AuthModel
  import Ops = StateTokenOps
  import T = Throttle

  datatype Status = OK | InvalidArgument | NotFound | AlreadyExists | PermissionDenied | Unauthenticated
                  | ResourceExhausted | Internal

  /** The outcome of an UPDATE: rows affected, or a duplicate key. */
  datatype Updated = Affected(n: nat) | Duplicate

  datatype AuthType = Unspecified | Email | Username | Phone

  datatype Claims = Claims(account: string, role: string)

  /** protoAuthTypeToString */
  function AuthTypeString(t: AuthType): Option<string> {
    match t
    case Email => Some("email")
    case Username => Some("username")
    case Phone => Some("phone")
    case Unspecified => None
  }

  /** The three kinds are told apart, and nothing else is one. */
  lemma AuthTypesDiffer(t: AuthType, u: AuthType)
    ensures AuthTypeString(t).None? <==> t == Unspecified
    ensures t != u && t != Unspecified && u != Unspecified ==> AuthTypeString(t).value != AuthTypeString(u).value
  {
    assert |"email"| == 5 && |"username"| == 8 && |"phone"| == 5 && "email"[0] != "phone"[0];
  }

  class Auth {
    const cfg: Config
    const redis: Client
    /** encrypt.Key: the stored hash for a salt and a password. */
    const derive: (string, string) -> string
    var accounts: map<string, Account>
    var auths: map<(string, string), string>

    ghost function View(): State
      reads this, redis
    {
      State(redis.Snapshot(), accounts, auths, redis.trace)
    }

    ghost predicate Ready()
      reads this, redis
    {
      Sound(cfg) && Inv(View(), cfg)
    }

    /** A hash that may be handed out for a new token. */
    ghost predicate Fresh(token: string)
      reads redis
    {
      token != "" && token !in redis.issued
    }

    constructor (cfg: Config, redis: Client, derive: (string, string) -> string)
      requires Sound(cfg) && redis.Snapshot() == Store(0, map[], map[], {}, map[], map[])
      ensures Ready() && this.cfg == cfg && this.redis == redis && accounts == map[]
    {
      this.cfg, this.redis, this.derive := cfg, redis, derive;
      accounts, auths := map[], map[];
      new;
      forall id
        ensures Live(redis.Snapshot(), id) == {} && Index(redis.Snapshot(), id) == {}
      {
      }
    }

    // -------------------------------------------------------------- shared parts

    /** stateRenew as the service calls it. */
    method Issue(old_: string, token: string, account: string, role: string) returns (outcome: Ops.Outcome)
      requires Ready() && Fresh(token) && Plain(account) && account != ""
      modifies redis`now, redis`trace, redis`index, redis`tokens, redis`issued
      ensures outcome.Done? ==> Issued(old(View()), View(), old_, token, account, role, cfg)
      ensures outcome.Done? ==> old_ == "" || Alive(old(redis.Snapshot()), old_)
      ensures outcome.Done? ==> TracedButOne(old(redis.trace), redis.trace, token, cfg.limit)
      ensures outcome.Failed? ==> old_ != "" && !Alive(redis.Snapshot(), old_)
      ensures outcome.Failed? ==> Waited(old(redis.Snapshot()), redis.Snapshot())
      ensures outcome.Failed? ==> Traced(old(redis.trace), redis.trace, cfg.limit)
    {
      ghost var victims;
      SplitValue(account, role);
      outcome, victims := Ops.Renew(redis, old_, token, account, ValueOf(account, role), cfg.refreshExpire, cfg.limit);
      assert ValueOf(account, role) != "";
      if outcome.Failed? {
        assert outcome.error == Ops.NoAuth;
      }
    }

    lemma Unchanged(a: State)
      requires Inv(a, cfg)
      ensures Next(a, Rejected, a, cfg)
    {
      WaitedCleans(a.store, a.store);
      QuietThrottle(a.store, a.store, Rejected, cfg);
    }

    /** Commands that only read, or touch only counters and locks. */
    ghost predicate OnlyWaits(a: State, a': State) {
      && Waited(a.store, a'.store) && SameRows(a, a') && Traced(a.trace, a'.trace, cfg.limit)
    }

    lemma OnlyWaited(a: State, a': State)
      requires Inv(a, cfg) && OnlyWaits(a, a') && T.SameThrottle(a.store, a'.store)
      ensures Next(a, Rejected, a', cfg)
    {
      WaitedCleans(a.store, a'.store);
      QuietThrottle(a.store, a'.store, Rejected, cfg);
    }

    // -------------------------------------------------------------- throttling

    ghost predicate Unlocked(s: Store, key: string) {
      key in s.locks ==> s.locks[key] <= s.now
    }

    /** The two lock checks at the start of Login. */
    method CheckLocks(identifier: string, ip: string) returns (open: bool)
      modifies redis`now, redis`trace
      ensures redis.now >= old(redis.now) && Still(old(redis.Snapshot()), old(redis.trace), redis.trace)
      ensures open ==> Unlocked(redis.Snapshot(), identifier) && (ip != "" ==> Unlocked(redis.Snapshot(), IPKey(ip)))
      ensures !open ==>
        old(!Unlocked(redis.Snapshot(), identifier) || (ip != "" && !Unlocked(redis.Snapshot(), IPKey(ip))))
    {
      if ip != "" {
        var ipTTL := redis.LockTTL(IPKey(ip));
        if ipTTL > 0 {
          return false;
        }
      }
      var ttl := redis.LockTTL(identifier);
      open := ttl <= 0;
    }

    /** The wrong-password branch of Login. */
    method RecordFailure(identifier: string, ip: string) returns (at: int, ipAt: int)
      requires Ready() && !IsIPKey(identifier)
      requires Unlocked(redis.Snapshot(), identifier) && (ip != "" ==> Unlocked(redis.Snapshot(), IPKey(ip)))
      modifies redis`now, redis`trace, redis`counters, redis`locks
      ensures Throttled(old(redis.Snapshot()), redis.Snapshot(), WrongPassword(identifier, ip, at, ipAt), cfg)
      ensures redis.now >= old(redis.now) && Still(old(redis.Snapshot()), old(redis.trace), redis.trace)
    {
      ghost var s := redis.Snapshot();
      assert T.CounterOk(s, identifier, MaxFor(cfg, identifier));
      at := T.RecordFailedAttempt(redis, identifier, cfg.maxAttempts, cfg.lockDuration);
      ipAt := at;
      ghost var m := redis.Snapshot();
      if ip != "" {
        assert IsIPKey(IPKey(ip));
        assert T.SameKey(s, m, IPKey(ip));
        assert T.CounterOk(s, IPKey(ip), MaxFor(cfg, IPKey(ip)));
        ipAt := T.RecordFailedAttempt(redis, IPKey(ip), cfg.maxIPAttempts, cfg.ipLockDuration);
      }
      ghost var s' := redis.Snapshot();
      ghost var c := WrongPassword(identifier, ip, at, ipAt);
      forall key
        ensures T.Stepped(s, s', key, StepFor(c, key), MaxFor(cfg, key), WindowFor(cfg, key))
      {
        if key == identifier {
          T.SteppedWiden(s, s, m, s', key, T.Failure(at), cfg.maxAttempts, cfg.lockDuration);
        } else if ip != "" && key == IPKey(ip) {
          T.SteppedWiden(s, m, s', s', key, T.Failure(ipAt), cfg.maxIPAttempts, cfg.ipLockDuration);
        } else {
          assert T.SameKey(s, m, key) && T.SameKey(m, s', key);
        }
      }
    }

    /** The counters and locks a correct password clears. */
    method ClearThrottle(identifier: string, ip: string) returns (at: int, ipAt: int)
      requires !IsIPKey(identifier)
      modifies redis`now, redis`trace, redis`counters, redis`locks
      ensures forall account, role, token ::
        Throttled(old(redis.Snapshot()), redis.Snapshot(),
                  LoggedIn(account, role, token, identifier, ip, at, ipAt), cfg)
      ensures redis.now >= old(redis.now) && Still(old(redis.Snapshot()), old(redis.trace), redis.trace)
    {
      redis.DelCounterAndLock(identifier, identifier);
      at := redis.now;
      ipAt := at;
      if ip != "" {
        redis.DelCounterAndLock(IPKey(ip), IPKey(ip));
        ipAt := redis.now;
      }
    }

    // -------------------------------------------------------------- the calls

    ghost function OwnRows(kind: string, id: string): set<(string, string)>
      reads this
    {
      set k | k in auths && k.0 == kind && auths[k] == id
    }

    method Register(authType: AuthType, identifier: string, password: string, accountID: string, salt: string,
                    token: string)
      returns (status: Status, ghost call: Call)
      requires Ready() && Fresh(token) && accountID !in accounts && Plain(accountID) && accountID != ""
      modifies this`accounts, this`auths, redis
      ensures Ready() && Next(old(View()), call, View(), cfg)
      ensures call == if status == OK then Registered(accountID, token) else Rejected
      ensures status == (if authType == Unspecified || identifier == "" || password == "" then InvalidArgument
                         else if (AuthTypeString(authType).value, identifier) in old(auths) then AlreadyExists
                         else OK)
      ensures status == OK ==>
        && auths == old(auths)[(AuthTypeString(authType).value, identifier) := accountID]
        && accounts == old(accounts)[accountID := Account("user", 1, derive(salt, password), salt, 0)]
    {
      ghost var a := View();
      call := Rejected;
      Unchanged(a);
      var kind := AuthTypeString(authType);
      if kind.None? || identifier == "" || password == "" {
        return InvalidArgument, call;
      }
      if (kind.value, identifier) in auths {
        return AlreadyExists, call;
      }
      auths := auths[(kind.value, identifier) := accountID];
      accounts := accounts[accountID := Account("user", 1, derive(salt, password), salt, 0)];
      ghost var m := View();
      assert Inv(m, cfg);
      var outcome := Issue("", token, accountID, "user");
      status, call := OK, Registered(accountID, token);
      RegisteredStep(a, m, View(), call);
      NextKeeps(a, call, View(), cfg);
    }

    lemma RegisteredStep(a: State, m: State, a': State, c: Call)
      requires Inv(m, cfg) && c.Registered? && c.account !in a.accounts && c.account in m.accounts
      requires m.store == a.store && m.trace == a.trace && m.accounts == a.accounts[c.account := m.accounts[c.account]]
      requires Issued(m, a', "", c.token, c.account, "user", cfg) && T.SameThrottle(a.store, a'.store)
      requires SameRows(m, a') && TracedButOne(m.trace, a'.trace, c.token, cfg.limit)
      ensures Next(a, c, a', cfg)
    {
      QuietThrottle(a.store, a'.store, c, cfg);
    }

    /** A lock on the identifier or on the address, as of store s and still held at time `now`. */
    ghost predicate LockHeld(s: Store, identifier: string, ip: string, now: int) {
      || (identifier in s.locks && s.locks[identifier] > now)
      || (ip != "" && "ip:" + ip in s.locks && s.locks["ip:" + ip] > now)
    }

    /** A missing type, identifier or password is refused first; a lock held from start to end refuses, and none
        refuses that was not held at the start; everything else is decided by the account and the password. A
        wrong password is counted for the identifier and the address, a right one clears both. */
    method Login(authType: AuthType, identifier: string, password: string, ip: string, token: string)
      returns (status: Status, ghost call: Call)
      requires Ready() && Fresh(token) && !IsIPKey(identifier)
      modifies redis
      ensures Ready() && Next(old(View()), call, View(), cfg)
      ensures status == InvalidArgument <==> authType == Unspecified || identifier == "" || password == ""
      ensures status == ResourceExhausted ==> LockHeld(old(redis.Snapshot()), identifier, ip, old(redis.now))
      ensures status != InvalidArgument && LockHeld(old(redis.Snapshot()), identifier, ip, redis.now) ==>
        status == ResourceExhausted
      ensures status != InvalidArgument && status != ResourceExhausted ==>
        var key := (AuthTypeString(authType).value, identifier);
        if key !in auths || accounts[auths[key]].deletedAt != 0 then status == NotFound
        else if accounts[auths[key]].status != 1 then status == PermissionDenied
        else if derive(accounts[auths[key]].salt, password) != accounts[auths[key]].passwordHash then
          status == Unauthenticated
        else status == OK && call.LoggedIn? && call.account == auths[key] && call.token == token
      ensures status == OK ==>
        && call.LoggedIn? && call.identifier == identifier && call.ip == ip
        && identifier !in redis.counters && identifier !in redis.locks
        && (ip != "" ==> "ip:" + ip !in redis.counters && "ip:" + ip !in redis.locks)
      ensures status == Unauthenticated ==>
        && call.WrongPassword? && call.identifier == identifier && call.ip == ip
        && T.Counted(old(redis.Snapshot()), redis.Snapshot(), identifier, call.at, cfg.maxAttempts, cfg.lockDuration)
        && (ip != "" ==> T.Counted(old(redis.Snapshot()), redis.Snapshot(), "ip:" + ip, call.ipAt, cfg.maxIPAttempts,
                                   cfg.ipLockDuration))
      ensures status != OK && status != Unauthenticated ==> call == Rejected
    {
      ghost var a := View();
      call := Rejected;
      Unchanged(a);
      var kind := AuthTypeString(authType);
      if kind.None? || identifier == "" || password == "" {
        return InvalidArgument, call;
      }
      var open := CheckLocks(identifier, ip);
      ghost var m := View();
      StillTraced(a.store, a.trace, m.trace, cfg.limit);
      OnlyWaited(a, m);
      NextKeeps(a, Rejected, m, cfg);
      if !open {
        return ResourceExhausted, call;
      }
      status, call := Attempt(a, kind.value, identifier, password, ip, token);
      if call.WrongPassword? {
        WrongPasswordCounts(a.store, redis.Snapshot(), call, cfg);
      } else if call.LoggedIn? {
        LoginClears(a.store, redis.Snapshot(), call, cfg);
      }
    }

    /** Login after the lock checks, which began in state a. */
    method Attempt(ghost a: State, kind: string, identifier: string, password: string, ip: string, token: string)
      returns (status: Status, ghost call: Call)
      requires Ready() && Inv(a, cfg) && Fresh(token) && !IsIPKey(identifier)
      requires OnlyWaits(a, View()) && T.SameThrottle(a.store, redis.Snapshot())
      requires Unlocked(redis.Snapshot(), identifier) && (ip != "" ==> Unlocked(redis.Snapshot(), IPKey(ip)))
      modifies redis
      ensures Ready() && Next(a, call, View(), cfg)
      ensures redis.now >= old(redis.now)
      ensures status == (if (kind, identifier) !in auths then NotFound
                         else if accounts[auths[(kind, identifier)]].deletedAt != 0 then NotFound
                         else var x := accounts[auths[(kind, identifier)]];
                           if x.status != 1 then PermissionDenied
                           else if derive(x.salt, password) != x.passwordHash then Unauthenticated
                           else OK)
      ensures status == OK ==> call.LoggedIn? && call.account == auths[(kind, identifier)] && call.token == token
      ensures status == Unauthenticated ==> call.WrongPassword?
      ensures status != OK && status != Unauthenticated ==> call == Rejected
      ensures call.WrongPassword? ==> call.identifier == identifier && call.ip == ip
      ensures call.LoggedIn? ==> call.identifier == identifier && call.ip == ip
    {
      ghost var m := View();
      call := Rejected;
      OnlyWaited(a, m);
      if (kind, identifier) !in auths || accounts[auths[(kind, identifier)]].deletedAt != 0 {
        return NotFound, call;
      }
      var id := auths[(kind, identifier)];
      var account := accounts[id];
      if account.status != 1 {
        return PermissionDenied, call;
      }
      ghost var at, ipAt;
      if derive(account.salt, password) != account.passwordHash {
        at, ipAt := RecordFailure(identifier, ip);
        status, call := Unauthenticated, WrongPassword(identifier, ip, at, ipAt);
        ThrottledWiden(a.store, m.store, redis.Snapshot(), redis.Snapshot(), call, cfg);
        StillTraced(m.store, m.trace, redis.trace, cfg.limit);
        TracedMore(a.trace, m.trace, redis.trace, cfg.limit);
      } else {
        at, ipAt := FinishLogin(identifier, ip, id, account.role, token);
        status, call := OK, LoggedIn(id, account.role, token, identifier, ip, at, ipAt);
        assert Throttled(m.store, redis.Snapshot(), call, cfg);
        ThrottledWiden(a.store, m.store, redis.Snapshot(), redis.Snapshot(), call, cfg);
        IssuedEarlier(a, m, View(), "", token, id, account.role);
        TracedJoin(a.trace, m.trace, redis.trace, token, cfg.limit);
      }
      NextKeeps(a, call, View(), cfg);
    }

    /** A correct password: clear the throttle and issue a token. */
    method FinishLogin(identifier: string, ip: string, account: string, role: string, token: string)
      returns (ghost at: int, ghost ipAt: int)
      requires Ready() && Fresh(token) && !IsIPKey(identifier) && Plain(account) && account != ""
      modifies redis
      ensures Throttled(old(redis.Snapshot()), redis.Snapshot(),
                        LoggedIn(account, role, token, identifier, ip, at, ipAt), cfg)
      ensures Issued(old(View()), View(), "", token, account, role, cfg)
      ensures TracedButOne(old(redis.trace), redis.trace, token, cfg.limit)
    {
      ghost var a := View();
      var t1, t2 := ClearThrottle(identifier, ip);
      at, ipAt := t1, t2;
      ghost var m := View();
      ghost var c := LoggedIn(account, role, token, identifier, ip, at, ipAt);
      ThrottledKeepsReady(a, m, c);
      StillTraced(a.store, a.trace, m.trace, cfg.limit);
      var outcome := Issue("", token, account, role);
      ThrottledWiden(a.store, a.store, m.store, redis.Snapshot(), c, cfg);
      IssuedEarlier(a, m, View(), "", token, account, role);
      TracedJoin(a.trace, m.trace, redis.trace, token, cfg.limit);
    }

    lemma ThrottledKeepsReady(a: State, m: State, c: Call)
      requires Sound(cfg) && Inv(a, cfg) && Waited(a.store, m.store) && SameRows(a, m)
      requires Throttled(a.store, m.store, c, cfg)
      ensures Inv(m, cfg)
    {
      WaitedCleans(a.store, m.store);
      CleanedKeeps(a.store, m.store, ":", cfg.limit);
      forall key
        ensures T.CounterOk(m.store, key, MaxFor(cfg, key))
      {
        T.SteppedKeeps(a.store, m.store, key, StepFor(c, key), MaxFor(cfg, key), WindowFor(cfg, key));
      }
    }

    /** A token issued from a later state with the same sessions was issued from the earlier one. */
    lemma IssuedEarlier(a: State, m: State, a': State, old_: string, token: string, account: string, role: string)
      requires Valid(a.store, cfg.limit) && Waited(a.store, m.store)
      requires Issued(m, a', old_, token, account, role, cfg)
      ensures Issued(a, a', old_, token, account, role, cfg)
    {
      var value := ValueOf(account, role);
      var victims :| Renewed(m.store, a'.store, old_, token, account, value, cfg.refreshExpire, victims, cfg.limit);
      assert forall i, t :: Indexed(m.store, i, t) <==> Indexed(a.store, i, t);
      LiveShrinks(a.store, m.store, account);
      forall v | v in victims
        ensures LeastTTL(a.store, a'.store, account, v)
      {
        assert LeastTTL(m.store, a'.store, account, v);
      }
      assert Renewed(a.store, a'.store, old_, token, account, value, cfg.refreshExpire, victims, cfg.limit);
    }

    method RefreshToken(oldHash: string, token: string) returns (status: Status, ghost call: Call)
      requires Ready() && Fresh(token)
      modifies redis`now, redis`trace, redis`index, redis`tokens, redis`issued
      ensures Ready() && Next(old(View()), call, View(), cfg)
      ensures status == OK <==> call.Refreshed?
      ensures status == OK ==> call.old_ == oldHash && call.token == token
      ensures status != OK ==> call == Rejected && !Alive(redis.Snapshot(), oldHash)
      ensures old(!Alive(redis.Snapshot(), oldHash)) ==> status == Unauthenticated
      ensures status == OK || status == Unauthenticated || status == Internal
    {
      ghost var a := View();
      call := Rejected;
      var val := redis.Get(oldHash);
      ghost var m := View();
      StillTraced(a.store, a.trace, m.trace, cfg.limit);
      OnlyWaited(a, m);
      NextKeeps(a, Rejected, m, cfg);
      if val.None? {
        return Unauthenticated, call;
      }
      var account, role := Owner(val.value), RoleOf(val.value);
      OwnerIsAccount(m, oldHash);
      var outcome := Issue(oldHash, token, account, role);
      if outcome.Done? {
        status, call := OK, Refreshed(oldHash, token, account, role);
        RefreshedStep(a, m, View(), call);
      } else {
        status := Internal;
        TracedMore(a.trace, m.trace, redis.trace, cfg.limit);
        OnlyWaited(a, View());
      }
      NextKeeps(a, call, View(), cfg);
    }

    lemma OwnerIsAccount(a: State, token: string)
      requires Inv(a, cfg) && token in a.store.tokens
      ensures var account := Owner(a.store.tokens[token].value); Plain(account) && account != ""
    {
      assert Named(a.store.tokens[token].value);
    }

    lemma RefreshedStep(a: State, m: State, a': State, c: Call)
      requires Inv(a, cfg) && OnlyWaits(a, m) && SameRows(a, a') && T.SameThrottle(a.store, a'.store)
      requires c.Refreshed? && Alive(m.store, c.old_) && TracedButOne(m.trace, a'.trace, c.token, cfg.limit)
      requires Owner(m.store.tokens[c.old_].value) == c.account && RoleOf(m.store.tokens[c.old_].value) == c.role
      requires Issued(m, a', c.old_, c.token, c.account, c.role, cfg)
      ensures Next(a, c, a', cfg)
    {
      IssuedEarlier(a, m, a', c.old_, c.token, c.account, c.role);
      TracedJoin(a.trace, m.trace, a'.trace, c.token, cfg.limit);
      QuietThrottle(a.store, a'.store, c, cfg);
    }

    method RevokeToken(hash: string) returns (status: Status, ghost call: Call)
      requires Ready()
      modifies redis`now, redis`trace, redis`index, redis`tokens
      ensures Ready() && Next(old(View()), call, View(), cfg)
      ensures status == OK && call == TokenRevoked(hash)
    {
      ghost var a := View();
      Ops.Revoke(redis, hash, cfg.limit);
      status, call := OK, TokenRevoked(hash);
      QuietThrottle(a.store, redis.Snapshot(), call, cfg);
      NextKeeps(a, call, View(), cfg);
    }

    method RevokeAllTokens(claims: Option<Claims>) returns (status: Status, ghost call: Call)
      requires Ready()
      modifies redis`now, redis`trace, redis`index, redis`tokens
      ensures Ready() && Next(old(View()), call, View(), cfg)
      ensures status == if claims.Some? then OK else Unauthenticated
      ensures call == if status == OK then TokensRevoked(claims.value.account) else Rejected
    {
      ghost var a := View();
      call := Rejected;
      Unchanged(a);
      if claims.None? {
        return Unauthenticated, call;
      }
      Ops.RevokeAll(redis, claims.value.account, cfg.limit);
      status, call := OK, TokensRevoked(claims.value.account);
      QuietThrottle(a.store, redis.Snapshot(), call, cfg);
      NextKeeps(a, call, View(), cfg);
    }

    /** Succeeds exactly when the account still has an indexed session. */
    method ValidateToken(claims: Option<Claims>) returns (status: Status, role: string, ghost call: Call)
      requires Ready()
      modifies redis`now, redis`trace, redis`index
      ensures Ready() && Next(old(View()), call, View(), cfg)
      ensures status == OK <==> claims.Some? && Index(redis.Snapshot(), claims.value.account) != {}
      ensures status == OK ==> call == Validated(claims.value.account, role) && role == claims.value.role
      ensures status != OK ==> status == Unauthenticated && call == Rejected
    {
      ghost var a := View();
      call := Rejected;
      role := "";
      Unchanged(a);
      if claims.None? {
        return Unauthenticated, role, call;
      }
      var count := Ops.Count(redis, claims.value.account, cfg.limit);
      assert Cleaned(a.store, redis.Snapshot(), claims.value.account);
      if count == 0 {
        status := Unauthenticated;
      } else {
        status, role, call := OK, claims.value.role, Validated(claims.value.account, claims.value.role);
      }
      QuietThrottle(a.store, redis.Snapshot(), call, cfg);
      NextKeeps(a, call, View(), cfg);
    }

    method UpdatePassword(accountID: string, oldPassword: string, newPassword: string, salt: string)
      returns (status: Status, ghost call: Call)
      requires Ready()
      modifies this`accounts, redis`now, redis`trace, redis`index, redis`tokens
      ensures Ready() && Next(old(View()), call, View(), cfg)
      ensures call == if status == OK then PasswordChanged(accountID) else Rejected
      ensures status == (if accountID == "" || oldPassword == "" || newPassword == "" then InvalidArgument
                         else if accountID !in old(accounts) || old(accounts)[accountID].deletedAt != 0 then NotFound
                         else var x := old(accounts)[accountID];
                           if x.status != 1 then PermissionDenied
                           else if derive(x.salt, oldPassword) != x.passwordHash then Unauthenticated
                           else OK)
      ensures status == OK ==>
        var changed := old(accounts)[accountID].(passwordHash := derive(salt, newPassword), salt := salt);
        accounts == old(accounts)[accountID := changed]
    {
      ghost var a := View();
      call := Rejected;
      Unchanged(a);
      if accountID == "" || oldPassword == "" || newPassword == "" {
        return InvalidArgument, call;
      }
      if accountID !in accounts || accounts[accountID].deletedAt != 0 {
        return NotFound, call;
      }
      if accounts[accountID].status != 1 {
        return PermissionDenied, call;
      }
      if derive(accounts[accountID].salt, oldPassword) != accounts[accountID].passwordHash {
        return Unauthenticated, call;
      }
      accounts := accounts[accountID := accounts[accountID].(passwordHash := derive(salt, newPassword), salt := salt)];
      Ops.RevokeAll(redis, accountID, cfg.limit);
      status, call := OK, PasswordChanged(accountID);
      QuietThrottle(a.store, redis.Snapshot(), call, cfg);
      NextKeeps(a, call, View(), cfg);
    }

    /** ReplaceAccountAuthIdentifier: one UPDATE over the account's rows of that kind, under the unique key
        on kind and identifier. A row that already has the identifier does not count as affected. */
    method ReplaceIdentifier(accountID: string, kind: string, identifier: string) returns (n: Updated)
      modifies this`auths
      ensures n == (if old(OwnRows(kind, accountID)) <= {(kind, identifier)} then Affected(0)
                    else if (kind, identifier) in old(auths) || old(|OwnRows(kind, accountID)| > 1) then Duplicate
                    else Affected(1))
      ensures n != Affected(1) ==> auths == old(auths)
      ensures n == Affected(1) ==>
        auths == (old(auths) - old(OwnRows(kind, accountID)))[(kind, identifier) := accountID]
    {
      var rows := set k | k in auths && k.0 == kind && auths[k] == accountID;
      if rows <= {(kind, identifier)} {
        return Affected(0);
      }
      if (kind, identifier) in auths || |rows| > 1 {
        return Duplicate;
      }
      auths := (auths - rows)[(kind, identifier) := accountID];
      n := Affected(1);
    }

    method UpdateIdentifier(accountID: string, authType: AuthType, newIdentifier: string)
      returns (status: Status, ghost call: Call)
      requires Ready()
      modifies this`auths, redis`now, redis`trace, redis`index, redis`tokens
      ensures Ready() && Next(old(View()), call, View(), cfg)
      ensures call == if status == OK then IdentifierChanged(accountID) else Rejected
      ensures status == (if accountID == "" || authType == Unspecified || newIdentifier == "" then InvalidArgument
                         else if accountID !in old(accounts) || old(accounts)[accountID].deletedAt != 0 then NotFound
                         else if old(accounts)[accountID].status != 1 then PermissionDenied
                         else var kind := AuthTypeString(authType).value;
                           if old(OwnRows(kind, accountID)) <= {(kind, newIdentifier)} then NotFound
                           else if (kind, newIdentifier) in old(auths) then AlreadyExists
                           else if old(|OwnRows(kind, accountID)| > 1) then AlreadyExists
                           else OK)
      ensures status == OK ==>
        var kind := AuthTypeString(authType).value;
        auths == (old(auths) - old(OwnRows(kind, accountID)))[(kind, newIdentifier) := accountID]
    {
      ghost var a := View();
      call := Rejected;
      Unchanged(a);
      var kind := AuthTypeString(authType);
      if accountID == "" || kind.None? || newIdentifier == "" {
        return InvalidArgument, call;
      }
      if accountID !in accounts || accounts[accountID].deletedAt != 0 {
        return NotFound, call;
      }
      if accounts[accountID].status != 1 {
        return PermissionDenied, call;
      }
      var n := ReplaceIdentifier(accountID, kind.value, newIdentifier);
      if n == Duplicate {
        return AlreadyExists, call;
      }
      if n == Affected(0) {
        return NotFound, call;
      }
      Ops.RevokeAll(redis, accountID, cfg.limit);
      status, call := OK, IdentifierChanged(accountID);
      QuietThrottle(a.store, redis.Snapshot(), call, cfg);
      NextKeeps(a, call, View(), cfg);
    }

    method DeleteAccount(accountID: string, password: string, deletedAt: int) returns (status: Status, ghost call: Call)
      requires Ready() && deletedAt != 0
      modifies this`accounts, this`auths, redis`now, redis`trace, redis`index, redis`tokens
      ensures Ready() && Next(old(View()), call, View(), cfg)
      ensures call == if status == OK then Deleted(accountID) else Rejected
      ensures status == (if accountID == "" || password == "" then InvalidArgument
                         else if accountID !in old(accounts) || old(accounts)[accountID].deletedAt != 0 then NotFound
                         else var x := old(accounts)[accountID];
                           if derive(x.salt, password) != x.passwordHash then Unauthenticated else OK)
      ensures status == OK ==>
        accounts == old(accounts)[accountID := old(accounts)[accountID].(deletedAt := deletedAt, status := 0)]
      ensures status == OK ==> forall k :: k in auths <==> k in old(auths) && old(auths)[k] != accountID
    {
      ghost var a := View();
      call := Rejected;
      Unchanged(a);
      if accountID == "" || password == "" {
        return InvalidArgument, call;
      }
      if accountID !in accounts || accounts[accountID].deletedAt != 0 {
        return NotFound, call;
      }
      if derive(accounts[accountID].salt, password) != accounts[accountID].passwordHash {
        return Unauthenticated, call;
      }
      Ops.RevokeAll(redis, accountID, cfg.limit);
      accounts := accounts[accountID := accounts[accountID].(deletedAt := deletedAt, status := 0)];
      auths := map k | k in auths && auths[k] != accountID :: auths[k];
      status, call := OK, Deleted(accountID);
      QuietThrottle(a.store, redis.Snapshot(), call, cfg);
      NextKeeps(a, call, View(), cfg);
    }
  }
}
