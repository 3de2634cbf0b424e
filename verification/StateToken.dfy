/** The session store of lib/auth/statetoken.go: token keys that expire, and one index per account
    that is cleaned lazily. */
module StateToken {
  import opened Redis

  // ---------------------------------------------------------------- token values

  /** strings.SplitN(value, ":", 2), first part. */
  function Owner(value: string): string {
    if value == "" || value[0] == ':' then "" else [value[0]] + Owner(value[1..])
  }

  /** Second part, with the default the service uses when there is no colon. */
  function RoleOf(value: string): string {
    if value == "" then "user" else if value[0] == ':' then value[1..] else RoleOf(value[1..])
  }

  /** An account id: no colon in it. */
  predicate Plain(id: string) {
    forall c :: c in id ==> c != ':'
  }

  function ValueOf(account: string, role: string): string {
    account + ":" + role
  }

  /** The stored value gives back the account and the role, whatever the role contains. */
  lemma {:induction false} SplitValue(account: string, role: string)
    requires Plain(account)
    ensures Owner(ValueOf(account, role)) == account && RoleOf(ValueOf(account, role)) == role
  {
    var v := ValueOf(account, role);
    if account == "" {
      assert v == ":" + role && v[1..] == role;
    } else {
      assert account[0] in account;
      assert forall c :: c in account[1..] ==> c in account;
      assert v[1..] == ValueOf(account[1..], role);
      SplitValue(account[1..], role);
    }
  }

  /** A value without a colon is an account id with the default role. */
  lemma {:induction false} DefaultRole(value: string)
    requires Plain(value)
    ensures Owner(value) == value && RoleOf(value) == "user"
  {
    if value != "" {
      assert value[0] in value;
      assert forall c :: c in value[1..] ==> c in value;
      DefaultRole(value[1..]);
    }
  }

  // ---------------------------------------------------------------- the store invariant

  /** The account a stored token belongs to. */
  function OwnerOf(s: Store, token: string): string
    requires token in s.tokens
  {
    Owner(s.tokens[token].value)
  }

  ghost function Live(s: Store, account: string): set<string> {
    set t | t in s.tokens && Alive(s, t) && OwnerOf(s, t) == account
  }

  /** Every live token outside `pending` is in the index of its account. */
  ghost predicate Covered(s: Store, pending: set<string>) {
    forall t :: Alive(s, t) && t !in pending ==> Indexed(s, OwnerOf(s, t), t)
  }

  /** Facts about single index entries and token keys. */
  ghost predicate Tidy(s: Store) {
    && (forall id, t :: Indexed(s, id, t) ==> Plain(id) && t != "" && t in s.issued)
    && (forall id, t :: Indexed(s, id, t) && t in s.tokens ==> OwnerOf(s, t) == id)
    && (forall t :: t in s.tokens ==> t in s.issued && t != "")
  }

  predicate Colon(value: string) {
    ':' in value
  }

  /** No account has more than `limit` live tokens, and no index has more than `limit + 1` entries. */
  ghost predicate Sized(s: Store, limit: nat) {
    forall id :: |Live(s, id)| <= limit && |Index(s, id)| <= limit + 1
  }

  /** Live tokens are indexed, and both bounds hold. */
  ghost predicate Steady(s: Store, limit: nat) {
    Covered(s, {}) && Sized(s, limit)
  }

  ghost predicate Valid(s: Store, limit: nat) {
    Tidy(s) && Steady(s, limit)
  }

  // ---------------------------------------------------------------- the stores between commands

  /** Commands that leave tokens and indexes alone. */
  ghost predicate Still(s: Store, before: seq<Store>, after: seq<Store>) {
    before <= after && forall k :: |before| <= k < |after| ==> Waited(s, after[k])
  }

  /** In every new store of the log live tokens are indexed and both bounds hold. */
  ghost predicate Traced(before: seq<Store>, after: seq<Store>, limit: nat) {
    before <= after && forall k :: |before| <= k < |after| ==> Steady(after[k], limit)
  }

  /** Both bounds hold in every new store. In exactly one of them a live token is missing from its index: the
      new token, between the command that stores it and the command that indexes it. */
  ghost predicate TracedButOne(before: seq<Store>, after: seq<Store>, new_: string, limit: nat) {
    && before <= after
    && (forall k :: |before| <= k < |after| ==> Sized(after[k], limit))
    && exists j :: MissesOnly(before, after, new_, j)
  }

  /** Store j is the only new one that misses an index entry, and the entry is that of `new_`. */
  ghost predicate MissesOnly(before: seq<Store>, after: seq<Store>, new_: string, j: nat) {
    && |before| <= j < |after| && !Covered(after[j], {}) && Covered(after[j], {new_})
    && forall k :: |before| <= k < |after| && k != j ==> Covered(after[k], {})
  }

  lemma StillMore(s: Store, later: int, a: seq<Store>, b: seq<Store>, c: seq<Store>)
    requires s.now <= later && Still(s, a, b) && Still(s.(now := later), b, c)
    ensures Still(s, a, c)
  {
    forall k | |a| <= k < |c|
      ensures Waited(s, c[k])
    {
      if k < |b| {
        assert c[k] == b[k];
      }
    }
  }

  lemma TracedMore(before: seq<Store>, middle: seq<Store>, after: seq<Store>, limit: nat)
    requires Traced(before, middle, limit) && Traced(middle, after, limit)
    ensures Traced(before, after, limit)
  {
  }

  lemma TracedJoin(a: seq<Store>, b: seq<Store>, c: seq<Store>, new_: string, limit: nat)
    requires Traced(a, b, limit) && TracedButOne(b, c, new_, limit)
    ensures TracedButOne(a, c, new_, limit)
  {
    var j :| MissesOnly(b, c, new_, j);
    assert forall k :: |a| <= k < |b| ==> c[k] == b[k];
    assert MissesOnly(a, c, new_, j);
  }

  lemma TracedAfter(a: seq<Store>, b: seq<Store>, c: seq<Store>, new_: string, limit: nat)
    requires TracedButOne(a, b, new_, limit) && Traced(b, c, limit)
    ensures TracedButOne(a, c, new_, limit)
  {
    var j :| MissesOnly(a, b, new_, j);
    assert forall k :: 0 <= k < |b| ==> c[k] == b[k];
    assert MissesOnly(a, c, new_, j);
  }

  /** Time passes and no token or index changes. */
  predicate Waited(s: Store, s': Store) {
    s'.now >= s.now && s'.tokens == s.tokens && s'.index == s.index && s'.issued == s.issued
  }

  // ---------------------------------------------------------------- what each operation does

  /** Only the index of `id` changed: dead entries may be gone, live ones are all there, and what is
      left was live at the start. */
  ghost predicate Cleaned(s: Store, s': Store, id: string) {
    && s'.now >= s.now && s'.tokens == s.tokens && s'.issued == s.issued
    && (forall other, t :: other != id ==> (Indexed(s', other, t) <==> Indexed(s, other, t)))
    && (forall t :: Indexed(s', id, t) ==> Indexed(s, id, t) && Alive(s, t))
    && (forall t :: Indexed(s, id, t) && Alive(s', t) ==> Indexed(s', id, t))
  }

  /** The token is dead afterwards, no other token changed, and no other index entry is gone. */
  ghost predicate Revoked(s: Store, s': Store, token: string) {
    && s'.now >= s.now && s'.issued == s.issued
    && (s'.tokens == s.tokens || (Alive(s, token) && s'.tokens == s.tokens - {token}))
    && !Alive(s', token)
    && (forall id, t :: Indexed(s', id, t) ==> Indexed(s, id, t))
    && (forall id, t :: Plain(id) && t != token && Indexed(s, id, t) ==> Indexed(s', id, t))
  }

  /** No token of the account is left and its index is empty; other accounts are untouched. */
  ghost predicate RevokedAll(s: Store, s': Store, id: string) {
    && s'.now >= s.now && s'.issued == s.issued
    && (forall t :: t in s'.tokens ==> t in s.tokens && s'.tokens[t] == s.tokens[t])
    && (forall t :: t in s.tokens && OwnerOf(s, t) != id ==> t in s'.tokens)
    && (forall t :: t in s'.tokens && OwnerOf(s', t) == id ==> !Alive(s', t))
    && (forall t :: !Indexed(s', id, t))
    && (forall other, t :: other != id ==> (Indexed(s', other, t) <==> Indexed(s, other, t)))
  }

  /** `victim` is no later to expire than any other live token of the account, up to the time the
      call itself took. */
  ghost predicate LeastTTL(s: Store, s': Store, id: string, victim: string) {
    && Indexed(s, id, victim) && victim in s.tokens
    && forall t :: t in Live(s', id) && t in s.tokens ==>
         s.tokens[victim].expires <= s.tokens[t].expires + (s'.now - s.now)
  }

  /** A new token replaces `old` ("" for none). At most one other token of the account is evicted,
      only when the index was full, and it is one of least remaining time. */
  ghost predicate Renewed(s: Store, s': Store, old_: string, new_: string, id: string, value: string, expiresIn: int,
                          victims: set<string>, limit: nat) {
    && s'.now >= s.now && s'.issued == s.issued + {new_}
    && (forall t :: t in s'.tokens <==> t == new_ || (t in s.tokens && t != old_ && t !in victims))
    && (forall t :: t in s'.tokens && t != new_ ==> s'.tokens[t] == s.tokens[t])
    && s'.tokens[new_].value == value && s.now + expiresIn <= s'.tokens[new_].expires <= s'.now + expiresIn
    && (forall other, t :: other != id && Indexed(s', other, t) ==> Indexed(s, other, t))
    && (forall other, t :: other != id && Plain(other) && Indexed(s, other, t) ==> Indexed(s', other, t))
    && Indexed(s', id, new_) && (old_ != "" ==> !Indexed(s', id, old_))
    && (forall t :: Indexed(s', id, t) && t != new_ ==> Indexed(s, id, t) && Alive(s, t))
    && (forall t :: Indexed(s, id, t) && t != old_ && Alive(s', t) ==> Indexed(s', id, t))
    && |victims| <= 1
    && (victims != {} ==> |Live(s, id)| >= limit && forall v :: v in victims ==> LeastTTL(s, s', id, v))
    && |Live(s', id) - {new_}| < limit
  }

  // ---------------------------------------------------------------- the operations keep the invariant

  lemma CoveredLater(s: Store, s': Store, pending: set<string>)
    requires Covered(s, pending) && s'.tokens == s.tokens && s'.now >= s.now
    requires forall id, t :: Indexed(s, id, t) && Alive(s', t) ==> Indexed(s', id, t)
    ensures Covered(s', pending)
  {
    forall t | Alive(s', t) && t !in pending
      ensures Indexed(s', OwnerOf(s', t), t)
    {
      assert Alive(s, t);
    }
  }

  /** Two stores in which the live tokens of the second are among those of the first. */
  lemma LiveShrinks(s: Store, s': Store, id: string)
    requires forall t :: t in s'.tokens && Alive(s', t) && OwnerOf(s', t) == id ==> Alive(s, t) && OwnerOf(s, t) == id
    ensures Live(s', id) <= Live(s, id) && |Live(s', id)| <= |Live(s, id)|
  {
    SubsetSize(Live(s', id), Live(s, id));
  }

  lemma {:induction false} SubsetSize<T>(a: set<T>, b: set<T>)
    requires a <= b
    ensures |a| <= |b|
  {
    if a != {} {
      var x :| x in a;
      SubsetSize(a - {x}, b - {x});
    }
  }

  lemma IndexShrinks(s: Store, s': Store, id: string)
    requires forall t :: Indexed(s', id, t) ==> Indexed(s, id, t)
    ensures |Index(s', id)| <= |Index(s, id)|
  {
    forall t | t in Index(s', id)
      ensures t in Index(s, id)
    {
      assert Indexed(s', id, t);
    }
    SubsetSize(Index(s', id), Index(s, id));
  }

  lemma SizedShrinks(s: Store, s': Store, limit: nat)
    requires Sized(s, limit)
    requires forall t :: Alive(s', t) ==> Alive(s, t) && OwnerOf(s', t) == OwnerOf(s, t)
    requires forall id, t :: Indexed(s', id, t) ==> Indexed(s, id, t)
    ensures Sized(s', limit)
  {
    forall id
      ensures |Live(s', id)| <= limit && |Index(s', id)| <= limit + 1
    {
      LiveShrinks(s, s', id);
      IndexShrinks(s, s', id);
    }
  }

  /** Index entries may go, those of live tokens stay. */
  lemma SteadyLater(s: Store, s': Store, limit: nat)
    requires Steady(s, limit) && s'.tokens == s.tokens && s'.now >= s.now
    requires forall id, t :: Indexed(s, id, t) && Alive(s', t) ==> Indexed(s', id, t)
    requires forall id, t :: Indexed(s', id, t) ==> Indexed(s, id, t)
    ensures Steady(s', limit)
  {
    CoveredLater(s, s', {});
    SizedShrinks(s, s', limit);
  }

  /** Tokens may go, the indexes stay. */
  lemma SteadyFewer(s: Store, s': Store, limit: nat)
    requires Steady(s, limit) && s'.now >= s.now
    requires forall t :: t in s'.tokens ==> t in s.tokens && s'.tokens[t] == s.tokens[t]
    requires forall i, t :: Indexed(s, i, t) <==> Indexed(s', i, t)
    ensures Steady(s', limit)
  {
    forall t | Alive(s', t)
      ensures Indexed(s', OwnerOf(s', t), t)
    {
      assert Alive(s, t);
    }
    SizedShrinks(s, s', limit);
  }

  lemma LaterSteady(s: Store, s': Store, limit: nat)
    requires Steady(s, limit) && Waited(s, s')
    ensures Steady(s', limit)
  {
    assert forall id, t :: Indexed(s', id, t) <==> Indexed(s, id, t);
    SteadyLater(s, s', limit);
  }

  lemma StillTraced(s: Store, before: seq<Store>, after: seq<Store>, limit: nat)
    requires Steady(s, limit) && Still(s, before, after)
    ensures Traced(before, after, limit)
  {
    forall k | |before| <= k < |after|
      ensures Steady(after[k], limit)
    {
      LaterSteady(s, after[k], limit);
    }
  }

  lemma IndexedLive(s: Store, id: string, entries: set<string>, limit: nat)
    requires Valid(s, limit)
    requires forall t :: t in entries ==> Indexed(s, id, t) && Alive(s, t)
    ensures entries <= Live(s, id) && |entries| <= |Live(s, id)| <= limit
  {
    assert entries <= Live(s, id);
    SubsetSize(entries, Live(s, id));
  }

  lemma CleanedKeeps(s: Store, s': Store, id: string, limit: nat)
    requires Valid(s, limit) && Cleaned(s, s', id)
    ensures Valid(s', limit)
    ensures Live(s', id) <= Index(s', id) <= Live(s, id)
  {
    SteadyLater(s, s', limit);
    IndexedLive(s, id, Index(s', id), limit);
  }

  lemma RevokedKeeps(s: Store, s': Store, token: string, limit: nat)
    requires Valid(s, limit) && Revoked(s, s', token)
    ensures Valid(s', limit)
  {
    assert Covered(s', {}) by {
      forall t | Alive(s', t)
        ensures Indexed(s', OwnerOf(s', t), t)
      {
        assert Alive(s, t) && OwnerOf(s, t) == OwnerOf(s', t);
        assert Indexed(s, OwnerOf(s, t), t);
        assert Plain(OwnerOf(s, t));
      }
    }
    SizedShrinks(s, s', limit);
  }

  lemma RevokedAllKeeps(s: Store, s': Store, id: string, limit: nat)
    requires Valid(s, limit) && RevokedAll(s, s', id)
    ensures Valid(s', limit) && Live(s', id) == {} && Index(s', id) == {}
  {
    forall t
      ensures t !in Index(s', id)
    {
      assert !Indexed(s', id, t);
    }
    assert Covered(s', {}) by {
      forall t | Alive(s', t)
        ensures Indexed(s', OwnerOf(s', t), t)
      {
        assert Alive(s, t);
      }
    }
    SizedShrinks(s, s', limit);
  }

  lemma RenewedKeeps(s: Store, s': Store, old_: string, new_: string, id: string, value: string, expiresIn: int,
                     victims: set<string>, limit: nat)
    requires Valid(s, limit) && Renewed(s, s', old_, new_, id, value, expiresIn, victims, limit)
    requires new_ != "" && new_ !in s.issued && Plain(id) && Owner(value) == id
    ensures Valid(s', limit)
  {
    RenewedTidy(s, s', old_, new_, id, value, expiresIn, victims, limit);
    RenewedCovered(s, s', old_, new_, id, value, expiresIn, victims, limit);
    forall other
      ensures |Live(s', other)| <= limit && |Index(s', other)| <= limit + 1
    {
      if other == id {
        RenewedSizes(s, s', old_, new_, id, value, expiresIn, victims, limit);
      } else {
        assert forall t :: t in s'.tokens && Alive(s', t) && OwnerOf(s', t) == other ==>
                 Alive(s, t) && OwnerOf(s, t) == other;
        LiveShrinks(s, s', other);
        IndexShrinks(s, s', other);
      }
    }
  }

  lemma RenewedCovered(s: Store, s': Store, old_: string, new_: string, id: string, value: string, expiresIn: int,
                       victims: set<string>, limit: nat)
    requires Valid(s, limit) && Renewed(s, s', old_, new_, id, value, expiresIn, victims, limit)
    requires Owner(value) == id
    ensures Covered(s', {})
  {
    forall t | Alive(s', t)
      ensures Indexed(s', OwnerOf(s', t), t)
    {
      if t != new_ {
        assert Alive(s, t) && OwnerOf(s, t) == OwnerOf(s', t);
        assert Indexed(s, OwnerOf(s, t), t) && Plain(OwnerOf(s, t));
      }
    }
  }

  lemma RenewedSizes(s: Store, s': Store, old_: string, new_: string, id: string, value: string, expiresIn: int,
                     victims: set<string>, limit: nat)
    requires Valid(s, limit) && Renewed(s, s', old_, new_, id, value, expiresIn, victims, limit)
    ensures |Live(s', id)| <= limit && |Index(s', id)| <= limit + 1
  {
    var kept := Index(s', id) - {new_};
    forall t | t in kept
      ensures Indexed(s, id, t) && Alive(s, t)
    {
      assert Indexed(s', id, t);
    }
    IndexedLive(s, id, kept, limit);
    assert Indexed(s', id, new_);
    assert Index(s', id) == kept + {new_};
    AddOne(Live(s', id), new_);
  }

  lemma AddOne<T>(a: set<T>, x: T)
    ensures |a| <= |a - {x}| + 1
  {
    SubsetSize(a, (a - {x}) + {x});
  }

  lemma RenewedTidy(s: Store, s': Store, old_: string, new_: string, id: string, value: string, expiresIn: int,
                    victims: set<string>, limit: nat)
    requires Valid(s, limit) && Renewed(s, s', old_, new_, id, value, expiresIn, victims, limit)
    requires new_ != "" && new_ !in s.issued && Plain(id) && Owner(value) == id
    ensures Tidy(s')
  {
    forall other, t | Indexed(s', other, t)
      ensures Plain(other) && t != "" && t in s'.issued
      ensures t in s'.tokens ==> OwnerOf(s', t) == other
    {
      if other != id || t != new_ {
        assert Indexed(s, other, t);
        assert t in s.issued;
      }
    }
  }
}
