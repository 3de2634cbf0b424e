/** lib/auth/statetoken.go command by command. Time may pass before each Redis command, so tokens
    may expire in the middle of any operation. */
module StateTokenOps {
  import opened Options
  import opened Redis
  import opened StateToken
  import opened Eviction

  datatype RenewError = EmptyArgument | NoAuth
  datatype Outcome = Done | Failed(error: RenewError)

  lemma CleanedLater(s: Store, m: Store, s': Store, id: string)
    requires Cleaned(s, m, id) && Waited(m, s')
    ensures Cleaned(s, s', id)
  {
    assert s'.index == m.index;
    assert forall other, t :: Indexed(s', other, t) <==> Indexed(m, other, t);
  }

  /** The EXISTS loop of stateTokenWithCleanExpires. */
  method FindStale(r: Client, data: set<string>) returns (stale: set<string>)
    modifies r`now, r`trace
    ensures stale <= data && Waited(old(r.Snapshot()), r.Snapshot())
    ensures Still(old(r.Snapshot()), old(r.trace), r.trace)
    ensures forall t :: t in stale ==> !Alive(r.Snapshot(), t)
    ensures forall t :: t in data && t !in stale ==> Alive(old(r.Snapshot()), t)
  {
    ghost var s := r.Snapshot();
    stale := {};
    var rest := data;
    while rest != {}
      invariant rest <= data && stale <= data
      invariant Waited(s, r.Snapshot()) && Still(s, old(r.trace), r.trace)
      invariant forall t :: t in stale ==> !Alive(r.Snapshot(), t)
      invariant forall t :: t in data && t !in rest && t !in stale ==> Alive(s, t)
      decreases rest
    {
      var k :| k in rest;
      rest := rest - {k};
      var found := r.Exists(k);
      if !found {
        stale := stale + {k};
      }
    }
  }

  /** stateTokenWithCleanExpires */
  method CleanExpires(r: Client, id: string, ghost limit: nat)
    requires Steady(r.Snapshot(), limit)
    modifies r`now, r`trace, r`index
    ensures Cleaned(old(r.Snapshot()), r.Snapshot(), id)
    ensures Steady(r.Snapshot(), limit)
    ensures Traced(old(r.trace), r.trace, limit)
  {
    ghost var s := r.Snapshot();
    var data := r.HGetAll(id);
    var stale := FindStale(r, data);
    StillTraced(s, old(r.trace), r.trace, limit);
    if stale != {} {
      r.HDel(id, stale);
    }
    ghost var s' := r.Snapshot();
    assert forall other, t :: Indexed(s', other, t) <==> Indexed(s, other, t) && !(other == id && t in stale);
    SteadyLater(s, s', limit);
  }

  /** StateTokenWithCount: between the number of live tokens at its return and at its call. */
  method Count(r: Client, id: string, ghost limit: nat) returns (n: nat)
    requires Valid(r.Snapshot(), limit)
    modifies r`now, r`trace, r`index
    ensures Cleaned(old(r.Snapshot()), r.Snapshot(), id) && n == |Index(r.Snapshot(), id)|
    ensures |Live(r.Snapshot(), id)| <= n <= |Live(old(r.Snapshot()), id)|
    ensures Valid(r.Snapshot(), limit)
    ensures Traced(old(r.trace), r.trace, limit)
  {
    ghost var s := r.Snapshot();
    CleanExpires(r, id, limit);
    ghost var m := r.Snapshot();
    n := r.HLen(id);
    LaterSteady(m, r.Snapshot(), limit);
    CleanedLater(s, m, r.Snapshot(), id);
    CleanedKeeps(s, r.Snapshot(), id, limit);
    SubsetSize(Live(r.Snapshot(), id), Index(r.Snapshot(), id));
    SubsetSize(Index(r.Snapshot(), id), Live(s, id));
  }

  /** StateTokenWithSearchList: the entries left after cleaning, in any order. */
  method SearchList(r: Client, id: string, ghost limit: nat) returns (tokens: seq<string>)
    requires Steady(r.Snapshot(), limit)
    modifies r`now, r`trace, r`index
    ensures Cleaned(old(r.Snapshot()), r.Snapshot(), id)
    ensures forall t :: t in tokens <==> Indexed(r.Snapshot(), id, t)
    ensures Steady(r.Snapshot(), limit) && Traced(old(r.trace), r.trace, limit)
  {
    ghost var s := r.Snapshot();
    CleanExpires(r, id, limit);
    ghost var m := r.Snapshot();
    var data := r.HGetAll(id);
    LaterSteady(m, r.Snapshot(), limit);
    CleanedLater(s, m, r.Snapshot(), id);
    tokens := [];
    var rest := data;
    while rest != {}
      invariant rest <= data
      invariant forall t :: t in data <==> t in rest || t in tokens
      decreases rest
    {
      var k :| k in rest;
      rest := rest - {k};
      tokens := tokens + [k];
    }
  }

  /** DEL of a token key and HDEL of its entry from the hash of `accountID`. */
  method Drop(r: Client, old_: string, accountID: string, ghost limit: nat)
    requires Steady(r.Snapshot(), limit)
    modifies r`now, r`trace, r`index, r`tokens
    ensures r.now >= old(r.now) && r.tokens == old(r.tokens) - {old_}
    ensures forall i, t :: Indexed(r.Snapshot(), i, t) <==>
                           Indexed(old(r.Snapshot()), i, t) && !(i == accountID && t == old_)
    ensures Steady(r.Snapshot(), limit) && Traced(old(r.trace), r.trace, limit)
  {
    ghost var x := r.Snapshot();
    r.Del({old_});
    ghost var y := r.Snapshot();
    assert forall i, t :: Indexed(y, i, t) <==> Indexed(x, i, t);
    SteadyFewer(x, y, limit);
    r.HDel(accountID, {old_});
    ghost var z := r.Snapshot();
    assert forall i, t :: Indexed(z, i, t) <==> Indexed(x, i, t) && !(i == accountID && t == old_);
    SteadyLater(y, z, limit);
  }

  /** StateTokenWithRevoke */
  method Revoke(r: Client, token: string, ghost limit: nat)
    requires Tidy(r.Snapshot()) && Steady(r.Snapshot(), limit)
    modifies r`now, r`trace, r`index, r`tokens
    ensures token != "" ==> Revoked(old(r.Snapshot()), r.Snapshot(), token)
    ensures token == "" ==> r.Snapshot() == old(r.Snapshot())
    // the hash the source deletes from is named by the whole value, so with `account:role` in it
    // the account's own index keeps the stale entry
    ensures token in old(r.tokens) && Colon(old(r.tokens)[token].value) ==>
              forall id, t :: Plain(id) ==> (Indexed(r.Snapshot(), id, t) <==> Indexed(old(r.Snapshot()), id, t))
    ensures Steady(r.Snapshot(), limit) && Traced(old(r.trace), r.trace, limit)
  {
    if token == "" {
      return;
    }
    ghost var s := r.Snapshot();
    var id := r.Get(token);
    LaterSteady(s, r.Snapshot(), limit);
    if id.None? {
      assert forall i, t :: Indexed(r.Snapshot(), i, t) <==> Indexed(s, i, t);
      return;
    }
    Drop(r, token, id.value, limit);
    if Colon(id.value) {
      ColonNotPlain(id.value);
    }
  }

  lemma ColonNotPlain(value: string)
    requires Colon(value)
    ensures !Plain(value)
  {
  }

  /** What an eviction leaves: at most one token gone, one of least remaining time, and unless the
      account has no live token one that was live is dead. */
  ghost predicate Evicted(s: Store, s': Store, id: string, victims: set<string>) {
    && s'.now >= s.now && s'.issued == s.issued && s'.tokens == s.tokens - victims
    && (forall other, t :: Indexed(s', other, t) ==> Indexed(s, other, t))
    && (forall other, t :: other != id && Plain(other) && Indexed(s, other, t) ==> Indexed(s', other, t))
    && (forall t :: Indexed(s', id, t) ==> Alive(s, t))
    && (forall t :: Indexed(s, id, t) && Alive(s', t) ==> Indexed(s', id, t))
    && |victims| <= 1 && (forall v :: v in victims ==> LeastTTL(s, s', id, v))
    && (Live(s', id) == {} || exists v :: v in Live(s, id) && !Alive(s', v))
  }

  /** `target` is dead, or expires no later than any listed token, up to the time that passed. */
  ghost predicate Oldest(m: Store, since: int, tokens: seq<string>, target: string) {
    Alive(m, target) ==>
      forall t :: t in tokens ==>
        t in m.tokens && m.tokens[target].expires <= m.tokens[t].expires + (m.now - since)
  }

  /** One reading of the search loop. */
  method ReadTTL(r: Client, token: string) returns (ttl: int)
    modifies r`now, r`trace
    ensures r.now >= old(r.now) && ttl == TTLAt(r.tokens, token, r.now)
    ensures Still(old(r.Snapshot()), old(r.trace), r.trace)
  {
    ttl := r.TTL(token);
  }

  /** The search loop of evictOldestToken, with the times at which it read the remaining times. */
  method PickOldest(r: Client, tokens: seq<string>) returns (target: string, ghost times: seq<int>)
    requires tokens != [] && "" !in tokens
    modifies r`now, r`trace
    ensures r.now >= old(r.now) && target in tokens
    ensures |times| == |tokens| && Readings(times, old(r.now), r.now)
    ensures target == Chosen(r.tokens, tokens, times)
    ensures Oldest(r.Snapshot(), old(r.now), tokens, target)
    ensures Still(old(r.Snapshot()), old(r.trace), r.trace)
  {
    times := [];
    var oldestToken, oldestTTL := "", -1;
    for i := 0 to |tokens|
      invariant r.now >= old(r.now) && |times| == i && Readings(times, old(r.now), r.now)
      invariant Best(oldestToken, oldestTTL) == BestOf(r.tokens, tokens[..i], times)
      invariant Still(old(r.Snapshot()), old(r.trace), r.trace)
    {
      ghost var before, trace0 := r.now, r.trace;
      var ttl := ReadTTL(r, tokens[i]);
      StillMore(old(r.Snapshot()), before, old(r.trace), trace0, r.trace);
      BestStep(r.tokens, tokens, times, i, r.now);
      ReadOnce(times, old(r.now), before, r.now);
      times := times + [r.now];
      if oldestTTL == -1 || ttl < oldestTTL {
        oldestTTL := ttl;
        oldestToken := tokens[i];
      }
    }
    assert tokens[..|tokens|] == tokens;
    target := if oldestToken != "" then oldestToken else tokens[0];
    ChosenOldest(r.Snapshot(), old(r.now), tokens, times);
  }

  lemma ChosenOldest(m: Store, since: int, tokens: seq<string>, times: seq<int>)
    requires tokens != [] && "" !in tokens && |times| == |tokens|
    requires Readings(times, since, m.now)
    ensures var target := Chosen(m.tokens, tokens, times); target in tokens && Oldest(m, since, tokens, target)
  {
    var i := BestIsFirstLeast(m.tokens, tokens, times);
    assert tokens[i] in tokens;
    if Alive(m, tokens[i]) {
      assert TTLAt(m.tokens, tokens[i], times[i]) > 0;
      forall t | t in tokens
        ensures t in m.tokens && m.tokens[tokens[i]].expires <= m.tokens[t].expires + (m.now - since)
      {
        var j :| 0 <= j < |tokens| && tokens[j] == t;
        assert TTLAt(m.tokens, tokens[i], times[i]) <= TTLAt(m.tokens, tokens[j], times[j]);
      }
    }
  }

  lemma EvictedLeast(s: Store, c: Store, m: Store, s': Store, id: string, tokens: seq<string>, target: string)
    requires s.now <= c.now <= m.now <= s'.now && m.tokens == s.tokens
    requires forall t :: t in s'.tokens ==> t in s.tokens && s'.tokens[t] == s.tokens[t]
    requires Covered(s', {}) && (forall t :: Indexed(s', id, t) ==> t in tokens)
    requires Alive(m, target) && Oldest(m, c.now, tokens, target) && Indexed(s, id, target)
    ensures LeastTTL(s, s', id, target)
  {
    forall t | t in Live(s', id) && t in s.tokens
      ensures s.tokens[target].expires <= s.tokens[t].expires + (s'.now - s.now)
    {
      assert Indexed(s', id, t);
      assert t in tokens;
    }
  }

  lemma EvictedBy(s: Store, c: Store, m: Store, s': Store, id: string, tokens: seq<string>, target: string, limit: nat)
    requires Valid(s, limit) && Plain(id) && Cleaned(s, c, id) && Waited(c, m) && Revoked(m, s', target)
    requires target in tokens && Oldest(m, c.now, tokens, target)
    requires forall t :: t in tokens <==> Indexed(c, id, t)
    ensures Valid(s', limit)
    ensures Evicted(s, s', id, if s'.tokens == s.tokens then {} else {target})
  {
    EvictedStarts(s, c, m, s', id, target, limit);
    if s'.tokens != s.tokens {
      EvictedLeast(s, c, m, s', id, tokens, target);
    }
    EvictedFrame(s, m, s', id, target);
  }

  lemma EvictedStarts(s: Store, c: Store, m: Store, s': Store, id: string, target: string, limit: nat)
    requires Valid(s, limit) && Plain(id) && Cleaned(s, c, id) && Waited(c, m) && Revoked(m, s', target)
    requires Indexed(c, id, target)
    ensures Cleaned(s, m, id) && Valid(s', limit)
    ensures forall i, t :: Indexed(m, i, t) <==> Indexed(c, i, t)
    ensures Indexed(s, id, target) && target in Live(s, id) && !Alive(s', target)
    ensures forall i :: i != id && Plain(i) ==> !Indexed(s, i, target)
  {
    CleanedLater(s, c, m, id);
    CleanedKeeps(s, m, id, limit);
    RevokedKeeps(m, s', target, limit);
    assert forall i, t :: Indexed(m, i, t) <==> Indexed(c, i, t);
  }

  lemma EvictedFrame(s: Store, m: Store, s': Store, id: string, target: string)
    requires Plain(id) && Cleaned(s, m, id) && Revoked(m, s', target) && Indexed(m, id, target)
    requires forall i :: i != id && Plain(i) ==> !Indexed(s, i, target)
    ensures s'.tokens == s.tokens - (if s'.tokens == s.tokens then {} else {target})
    ensures forall i, t :: Indexed(s', i, t) ==> Indexed(s, i, t)
    ensures forall i, t :: i != id && Plain(i) && Indexed(s, i, t) ==> Indexed(s', i, t)
    ensures forall t :: Indexed(s', id, t) ==> Alive(s, t)
    ensures forall t :: Indexed(s, id, t) && Alive(s', t) ==> Indexed(s', id, t)
  {
    forall t | Indexed(s, id, t) && Alive(s', t)
      ensures Indexed(s', id, t)
    {
      assert Alive(m, t) && t != target;
      assert Indexed(m, id, t);
    }
  }

  /** evictOldestToken */
  method EvictOldest(r: Client, id: string, ghost limit: nat) returns (ghost victims: set<string>)
    requires Valid(r.Snapshot(), limit) && Plain(id)
    modifies r`now, r`trace, r`index, r`tokens
    ensures Evicted(old(r.Snapshot()), r.Snapshot(), id, victims)
    ensures Valid(r.Snapshot(), limit)
    ensures Traced(old(r.trace), r.trace, limit)
  {
    ghost var s := r.Snapshot();
    var tokens := SearchList(r, id, limit);
    ghost var c := r.Snapshot();
    CleanedKeeps(s, c, id, limit);
    victims := {};
    if |tokens| == 0 {
      assert forall t :: !Indexed(c, id, t);
      assert Live(c, id) == {};
      assert c.tokens == s.tokens - {};
      return;
    }
    ghost var times;
    var target;
    ghost var trace0 := r.trace;
    target, times := PickOldest(r, tokens);
    StillTraced(c, trace0, r.trace, limit);
    ghost var m := r.Snapshot();
    LaterKeeps(c, m, limit);
    assert Indexed(c, id, target);
    Revoke(r, target, limit);
    victims := if r.tokens == s.tokens then {} else {target};
    EvictedBy(s, c, m, r.Snapshot(), id, tokens, target, limit);
  }

  // ---------------------------------------------------------------- renewal

  /** The store after the eviction step of a renewal, which happens only when the index is full. */
  ghost predicate MadeRoom(c: Store, v: Store, id: string, victims: set<string>, limit: nat) {
    if |Index(c, id)| >= limit then Evicted(c, v, id, victims) else v == c && victims == {}
  }

  /** The store after the commands that follow the eviction. */
  ghost predicate Swapped(v: Store, z: Store, old_: string, new_: string, id: string, value: string, expiresIn: int) {
    && z.now >= v.now && z.issued == v.issued + {new_}
    && (forall t :: t in z.tokens <==> t == new_ || (t in v.tokens && t != old_))
    && (forall t :: t in z.tokens && t != new_ ==> z.tokens[t] == v.tokens[t])
    && z.tokens[new_].value == value && v.now + expiresIn <= z.tokens[new_].expires <= z.now + expiresIn
    && (forall other, t :: Indexed(z, other, t) <==>
         if other == id && t == new_ then true else Indexed(v, other, t) && !(other == id && t == old_ && old_ != ""))
  }

  /** Room for one more token and one more index entry. */
  ghost predicate Room(v: Store, id: string, limit: nat) {
    |Live(v, id)| < limit && |Index(v, id)| <= limit
  }

  lemma IndexAfter(c: Store, v: Store, id: string, victims: set<string>, limit: nat)
    requires Valid(c, limit) && Evicted(c, v, id, victims)
    ensures |Index(v, id)| <= limit
  {
    forall t | t in Index(v, id)
      ensures Indexed(c, id, t) && Alive(c, t)
    {
      assert Indexed(v, id, t);
    }
    IndexedLive(c, id, Index(v, id), limit);
  }

  lemma RoomIsMade(s: Store, c: Store, v: Store, id: string, victims: set<string>, limit: nat)
    requires Valid(s, limit) && limit >= 1 && Cleaned(s, c, id) && MadeRoom(c, v, id, victims, limit)
    ensures Room(v, id, limit)
    ensures victims != {} ==> |Live(s, id)| >= limit
  {
    CleanedKeeps(s, c, id, limit);
    SubsetSize(Index(c, id), Live(s, id));
    if |Index(c, id)| >= limit {
      IndexAfter(c, v, id, victims, limit);
      if Live(v, id) != {} {
        var d :| d in Live(c, id) && !Alive(v, d);
        assert Live(v, id) <= Live(c, id) - {d};
        SubsetSize(Live(v, id), Live(c, id) - {d});
      }
    } else {
      SubsetSize(Live(c, id), Index(c, id));
    }
  }

  lemma RenewedBy(s: Store, c: Store, v: Store, z: Store, old_: string, new_: string, id: string, value: string,
                  expiresIn: int, victims: set<string>, limit: nat)
    requires Valid(s, limit) && limit >= 1 && new_ !in s.issued && Plain(id) && expiresIn > 0
    requires Cleaned(s, c, id) && MadeRoom(c, v, id, victims, limit)
    requires Swapped(v, z, old_, new_, id, value, expiresIn) && old_ != new_
    ensures Renewed(s, z, old_, new_, id, value, expiresIn, victims, limit)
  {
    RoomIsMade(s, c, v, id, victims, limit);
    assert v.tokens == s.tokens - victims;
    RenewedLive(v, z, old_, new_, id, value, expiresIn);
    RenewedIndex(s, c, v, z, old_, new_, id, value, expiresIn, victims, limit);
    RenewedVictims(s, c, v, z, old_, new_, id, value, expiresIn, victims, limit);
  }

  lemma RenewedVictims(s: Store, c: Store, v: Store, z: Store, old_: string, new_: string, id: string, value: string,
                       expiresIn: int, victims: set<string>, limit: nat)
    requires new_ !in s.tokens && Cleaned(s, c, id) && MadeRoom(c, v, id, victims, limit)
    requires Swapped(v, z, old_, new_, id, value, expiresIn)
    ensures forall w :: w in victims ==> LeastTTL(s, z, id, w)
  {
    forall w | w in victims
      ensures LeastTTL(s, z, id, w)
    {
      assert LeastTTL(c, v, id, w);
      assert forall t :: t in Live(z, id) && t in s.tokens ==> t in Live(v, id) && t in c.tokens;
    }
  }

  lemma RenewedLive(v: Store, z: Store, old_: string, new_: string, id: string, value: string, expiresIn: int)
    requires Swapped(v, z, old_, new_, id, value, expiresIn)
    ensures Live(z, id) - {new_} <= Live(v, id) && |Live(z, id) - {new_}| <= |Live(v, id)|
  {
    assert Live(z, id) - {new_} <= Live(v, id);
    SubsetSize(Live(z, id) - {new_}, Live(v, id));
  }

  lemma RenewedIndex(s: Store, c: Store, v: Store, z: Store, old_: string, new_: string, id: string, value: string,
                     expiresIn: int, victims: set<string>, limit: nat)
    requires Valid(s, limit) && new_ !in s.issued && old_ != new_
    requires Cleaned(s, c, id) && MadeRoom(c, v, id, victims, limit)
    requires Swapped(v, z, old_, new_, id, value, expiresIn)
    ensures Indexed(z, id, new_) && (old_ != "" ==> !Indexed(z, id, old_))
    ensures forall other, t :: other != id && Indexed(z, other, t) ==> Indexed(s, other, t)
    ensures forall other, t :: other != id && Plain(other) && Indexed(s, other, t) ==> Indexed(z, other, t)
    ensures forall t :: Indexed(z, id, t) && t != new_ ==> Indexed(s, id, t) && Alive(s, t)
    ensures forall t :: Indexed(s, id, t) && t != old_ && Alive(z, t) ==> Indexed(z, id, t)
  {
    forall t | Indexed(s, id, t) && t != old_ && Alive(z, t)
      ensures Indexed(z, id, t)
    {
      assert t in s.issued;
      assert Alive(v, t) && Alive(c, t) && Indexed(c, id, t) && Indexed(v, id, t);
    }
  }

  /** StateTokenWithRenew. `new_` must be a hash never stored before. */
  method Renew(r: Client, old_: string, new_: string, accountID: string, value: string, expiresIn: int, limit: nat)
    returns (outcome: Outcome, ghost victims: set<string>)
    requires Valid(r.Snapshot(), limit) && limit >= 1 && expiresIn > 0
    requires new_ !in r.issued && Plain(accountID) && (value == "" || Owner(value) == accountID)
    modifies r`now, r`trace, r`index, r`tokens, r`issued
    ensures Valid(r.Snapshot(), limit)
    ensures outcome == Failed(EmptyArgument) <==> new_ == "" || accountID == ""
    ensures outcome == Failed(EmptyArgument) ==> r.Snapshot() == old(r.Snapshot()) && r.trace == old(r.trace)
    ensures outcome == Failed(NoAuth) ==>
              old_ != "" && !Alive(r.Snapshot(), old_) && Waited(old(r.Snapshot()), r.Snapshot())
    ensures outcome == Failed(NoAuth) ==> Traced(old(r.trace), r.trace, limit)
    ensures outcome.Done? ==> old_ == "" || Alive(old(r.Snapshot()), old_)
    ensures outcome.Done? ==> Renewed(old(r.Snapshot()), r.Snapshot(), old_, new_, accountID,
                                      if value == "" then accountID else value, expiresIn, victims, limit)
    ensures outcome.Done? ==> TracedButOne(old(r.trace), r.trace, new_, limit)
  {
    victims := {};
    if new_ == "" || accountID == "" {
      return Failed(EmptyArgument), victims;
    }
    ghost var s, trace0 := r.Snapshot(), r.trace;
    if old_ != "" {
      var found := CheckOld(r, old_, limit);
      if !found {
        return Failed(NoAuth), victims;
      }
    }
    ghost var e, trace1 := r.Snapshot(), r.trace;
    victims := Replace(r, old_, new_, accountID, if value == "" then accountID else value, expiresIn, limit, s);
    TracedJoin(trace0, trace1, r.trace, new_, limit);
    outcome := Done;
  }

  method CheckOld(r: Client, old_: string, ghost limit: nat) returns (found: bool)
    requires Valid(r.Snapshot(), limit)
    modifies r`now, r`trace
    ensures r.now >= old(r.now) && found == Alive(r.Snapshot(), old_) && Valid(r.Snapshot(), limit)
    ensures Traced(old(r.trace), r.trace, limit)
  {
    ghost var s := r.Snapshot();
    found := r.Exists(old_);
    LaterKeeps(s, r.Snapshot(), limit);
  }

  /** StateTokenWithRenew once the old token has been found. */
  method Replace(r: Client, old_: string, new_: string, accountID: string, value: string, expiresIn: int, limit: nat,
                 ghost s: Store) returns (ghost victims: set<string>)
    requires Valid(s, limit) && Valid(r.Snapshot(), limit) && Waited(s, r.Snapshot())
    requires limit >= 1 && expiresIn > 0 && new_ != "" && new_ !in r.issued && old_ != new_
    requires Plain(accountID) && (value == accountID || Owner(value) == accountID)
    modifies r`now, r`trace, r`index, r`tokens, r`issued
    ensures Renewed(s, r.Snapshot(), old_, new_, accountID, value, expiresIn, victims, limit)
    ensures Valid(r.Snapshot(), limit)
    ensures TracedButOne(old(r.trace), r.trace, new_, limit)
  {
    DefaultRole(accountID);
    ghost var e := r.Snapshot();
    ghost var c;
    c, victims := MakeRoom(r, accountID, limit);
    ghost var v, trace1 := r.Snapshot(), r.trace;
    StoreAndIndex(r, old_, new_, accountID, value, expiresIn, limit);
    RenewFinish(s, e, c, v, r.Snapshot(), old_, new_, accountID, value, expiresIn, victims, limit);
    TracedJoin(old(r.trace), trace1, r.trace, new_, limit);
  }

  lemma RenewFinish(s: Store, e: Store, c: Store, v: Store, z: Store, old_: string, new_: string, id: string,
                    value: string, expiresIn: int, victims: set<string>, limit: nat)
    requires Valid(s, limit) && limit >= 1 && new_ !in s.issued && new_ != "" && Plain(id) && expiresIn > 0
    requires Waited(s, e) && Cleaned(e, c, id) && MadeRoom(c, v, id, victims, limit)
    requires Swapped(v, z, old_, new_, id, value, expiresIn) && old_ != new_ && Owner(value) == id
    ensures Renewed(s, z, old_, new_, id, value, expiresIn, victims, limit) && Valid(z, limit)
  {
    LaterCleaned(s, e, c, id);
    RenewedBy(s, c, v, z, old_, new_, id, value, expiresIn, victims, limit);
    RenewedKeeps(s, z, old_, new_, id, value, expiresIn, victims, limit);
  }

  /** The count and the eviction of StateTokenWithRenew. */
  method MakeRoom(r: Client, accountID: string, limit: nat) returns (ghost c: Store, ghost victims: set<string>)
    requires Valid(r.Snapshot(), limit) && Plain(accountID) && limit >= 1
    modifies r`now, r`trace, r`index, r`tokens
    ensures Room(r.Snapshot(), accountID, limit)
    ensures Cleaned(old(r.Snapshot()), c, accountID) && MadeRoom(c, r.Snapshot(), accountID, victims, limit)
    ensures Valid(r.Snapshot(), limit)
    ensures Traced(old(r.trace), r.trace, limit)
  {
    victims := {};
    var count := Count(r, accountID, limit);
    c := r.Snapshot();
    if count >= limit {
      victims := EvictOldest(r, accountID, limit);
    }
    RoomIsMade(old(r.Snapshot()), c, r.Snapshot(), accountID, victims, limit);
  }

  /** The writes of StateTokenWithRenew: SET, HSET, and for a rotation DEL and HDEL. */
  method StoreAndIndex(r: Client, old_: string, new_: string, accountID: string, value: string, expiresIn: int,
                       ghost limit: nat)
    requires Valid(r.Snapshot(), limit) && Room(r.Snapshot(), accountID, limit) && expiresIn > 0
    requires new_ !in r.issued && Plain(accountID) && Owner(value) == accountID && old_ != new_
    modifies r`now, r`trace, r`index, r`tokens, r`issued
    ensures Swapped(old(r.Snapshot()), r.Snapshot(), old_, new_, accountID, value, expiresIn)
    ensures TracedButOne(old(r.trace), r.trace, new_, limit)
  {
    ghost var v := r.Snapshot();
    SetNew(r, new_, accountID, value, expiresIn, limit);
    ghost var x, traceX := r.Snapshot(), r.trace;
    if old_ != "" {
      Drop(r, old_, accountID, limit);
    }
    TracedAfter(old(r.trace), traceX, r.trace, new_, limit);
  }

  method SetNew(r: Client, new_: string, accountID: string, value: string, expiresIn: int, ghost limit: nat)
    requires Valid(r.Snapshot(), limit) && Room(r.Snapshot(), accountID, limit) && expiresIn > 0
    requires new_ !in r.issued && Owner(value) == accountID
    modifies r`now, r`trace, r`index, r`tokens, r`issued
    ensures Swapped(old(r.Snapshot()), r.Snapshot(), "", new_, accountID, value, expiresIn)
    ensures Steady(r.Snapshot(), limit) && TracedButOne(old(r.trace), r.trace, new_, limit)
  {
    ghost var v := r.Snapshot();
    r.Set(new_, value, expiresIn);
    ghost var w := r.Snapshot();
    assert forall i, t :: Indexed(w, i, t) <==> Indexed(v, i, t);
    NotYetIndexed(v, w, new_, accountID);
    SizedWithNew(v, w, new_, accountID, limit);
    r.HSet(accountID, new_);
    ghost var x := r.Snapshot();
    IndexedNew(v, w, x, new_, accountID, limit);
    OneMissing(old(r.trace), w, x, new_, limit);
    assert r.trace == old(r.trace) + [w] + [x];
  }

  lemma IndexedNew(v: Store, w: Store, x: Store, new_: string, id: string, limit: nat)
    requires Sized(v, limit) && Room(v, id, limit) && v.now <= w.now <= x.now && Covered(w, {new_})
    requires new_ in w.tokens && OwnerOf(w, new_) == id && x.tokens == w.tokens
    requires forall t :: t in w.tokens && t != new_ ==> t in v.tokens && w.tokens[t] == v.tokens[t]
    requires w.index == v.index && x.index == w.index[id := Index(w, id) + {new_}]
    ensures forall i, t :: Indexed(x, i, t) <==> Indexed(v, i, t) || (i == id && t == new_)
    ensures Steady(x, limit)
  {
    CoveredIndexed(w, x, new_);
    SizedWithNew(v, x, new_, id, limit);
  }

  lemma OneMissing(before: seq<Store>, w: Store, x: Store, new_: string, limit: nat)
    requires Sized(w, limit) && !Covered(w, {}) && Covered(w, {new_}) && Steady(x, limit)
    ensures TracedButOne(before, before + [w] + [x], new_, limit)
  {
    assert MissesOnly(before, before + [w] + [x], new_, |before|);
  }

  lemma NotYetIndexed(v: Store, w: Store, new_: string, id: string)
    requires Tidy(v) && Covered(v, {}) && new_ !in v.issued && w.now >= v.now
    requires Alive(w, new_) && OwnerOf(w, new_) == id
    requires forall t :: t in w.tokens && t != new_ ==> t in v.tokens && w.tokens[t] == v.tokens[t]
    requires forall i, t :: Indexed(w, i, t) <==> Indexed(v, i, t)
    ensures !Covered(w, {}) && Covered(w, {new_})
  {
    assert !Indexed(w, id, new_);
    forall t | Alive(w, t) && t !in {new_}
      ensures Indexed(w, OwnerOf(w, t), t)
    {
      assert Alive(v, t);
    }
  }

  /** One more token and index entry where there was room for them. */
  lemma SizedWithNew(v: Store, w: Store, new_: string, id: string, limit: nat)
    requires Sized(v, limit) && Room(v, id, limit) && w.now >= v.now
    requires new_ in w.tokens && OwnerOf(w, new_) == id
    requires forall t :: t in w.tokens && t != new_ ==> t in v.tokens && w.tokens[t] == v.tokens[t]
    requires forall i, t :: Indexed(w, i, t) ==> Indexed(v, i, t) || (i == id && t == new_)
    ensures Sized(w, limit)
  {
    forall i
      ensures |Live(w, i)| <= limit && |Index(w, i)| <= limit + 1
    {
      if i == id {
        AddOne(Live(w, i), new_);
        SubsetSize(Live(w, i) - {new_}, Live(v, i));
        AddOne(Index(w, i), new_);
        EntriesBut(v, w, new_, i);
      } else {
        LiveShrinks(v, w, i);
        IndexShrinks(v, w, i);
      }
    }
  }

  lemma EntriesBut(v: Store, w: Store, new_: string, id: string)
    requires forall t :: Indexed(w, id, t) ==> Indexed(v, id, t) || t == new_
    ensures |Index(w, id) - {new_}| <= |Index(v, id)|
  {
    forall t | t in Index(w, id) - {new_}
      ensures t in Index(v, id)
    {
      assert Indexed(w, id, t);
    }
    SubsetSize(Index(w, id) - {new_}, Index(v, id));
  }

  lemma CoveredIndexed(w: Store, x: Store, new_: string)
    requires Covered(w, {new_}) && x.tokens == w.tokens && x.now >= w.now && new_ in w.tokens
    requires forall i, t :: Indexed(w, i, t) ==> Indexed(x, i, t)
    requires Indexed(x, OwnerOf(x, new_), new_)
    ensures Covered(x, {})
  {
    CoveredLater(w, x, {new_});
  }

  lemma LaterKeeps(s: Store, s': Store, limit: nat)
    requires Valid(s, limit) && Waited(s, s')
    ensures Valid(s', limit)
  {
    assert forall id, t :: Indexed(s', id, t) <==> Indexed(s, id, t);
    LaterSteady(s, s', limit);
  }

  lemma LaterCleaned(s: Store, e: Store, c: Store, id: string)
    requires Waited(s, e) && Cleaned(e, c, id)
    ensures Cleaned(s, c, id)
  {
    assert forall i, t :: Indexed(e, i, t) <==> Indexed(s, i, t);
  }

  // ---------------------------------------------------------------- revoking everything

  /** StateTokenWithRevokeAll */
  method RevokeAll(r: Client, id: string, ghost limit: nat)
    requires Valid(r.Snapshot(), limit)
    modifies r`now, r`trace, r`index, r`tokens
    ensures RevokedAll(old(r.Snapshot()), r.Snapshot(), id)
    ensures Valid(r.Snapshot(), limit) && Live(r.Snapshot(), id) == {} && Index(r.Snapshot(), id) == {}
    ensures Traced(old(r.trace), r.trace, limit)
  {
    ghost var s := r.Snapshot();
    var tokens := SearchList(r, id, limit);
    ghost var c := r.Snapshot();
    CleanedKeeps(s, c, id, limit);
    var keys: set<string> := {};
    for i := 0 to |tokens|
      invariant forall t :: t in keys <==> t in tokens[..i]
    {
      keys := keys + {tokens[i]};
    }
    assert forall t :: t in keys <==> Indexed(c, id, t);
    DropAll(r, id, keys, limit);
    AllRevoked(s, c, r.Snapshot(), id, keys, limit);
  }

  /** The two DEL commands of StateTokenWithRevokeAll. */
  method DropAll(r: Client, id: string, keys: set<string>, ghost limit: nat)
    requires Steady(r.Snapshot(), limit) && forall t :: Indexed(r.Snapshot(), id, t) ==> t in keys
    modifies r`now, r`trace, r`index, r`tokens
    ensures r.now >= old(r.now) && r.tokens == old(r.tokens) - keys
    ensures forall i, t :: Indexed(r.Snapshot(), i, t) <==> i != id && Indexed(old(r.Snapshot()), i, t)
    ensures Traced(old(r.trace), r.trace, limit)
  {
    ghost var c := r.Snapshot();
    r.Del(keys);
    ghost var d := r.Snapshot();
    assert forall i, t :: Indexed(d, i, t) <==> Indexed(c, i, t);
    SteadyFewer(c, d, limit);
    r.DelIndex(id);
    ghost var s' := r.Snapshot();
    assert forall i, t :: Indexed(s', i, t) <==> i != id && Indexed(c, i, t);
    assert Covered(s', {}) by {
      forall t | Alive(s', t)
        ensures Indexed(s', OwnerOf(s', t), t)
      {
        assert Alive(d, t) && Indexed(d, OwnerOf(d, t), t) && t !in keys;
      }
    }
    SizedShrinks(d, s', limit);
  }

  lemma AllRevoked(s: Store, c: Store, s': Store, id: string, keys: set<string>, limit: nat)
    requires Valid(s, limit) && Cleaned(s, c, id) && Covered(c, {}) && s'.now >= c.now && s'.issued == c.issued
    requires forall t :: t in keys <==> Indexed(c, id, t)
    requires s'.tokens == c.tokens - keys
    requires forall i, t :: Indexed(s', i, t) <==> i != id && Indexed(c, i, t)
    ensures RevokedAll(s, s', id) && Valid(s', limit) && Live(s', id) == {} && Index(s', id) == {}
    ensures Covered(s', {})
  {
    forall t | t in s'.tokens && OwnerOf(s', t) == id
      ensures !Alive(s', t)
    {
      assert Alive(s', t) ==> Alive(c, t);
    }
    forall t | t in s.tokens && OwnerOf(s, t) != id
      ensures t in s'.tokens
    {
      assert Indexed(c, id, t) ==> Indexed(s, id, t);
    }
    RevokedAllKeeps(s, s', id, limit);
  }
}
