/** The part of Redis the services use: expiring string keys, hashes without expiry, counters and
    lock keys. Every command is atomic, and time may pass before any command. */
module Redis {
  import opened Options

  /** A string key with the time at which it disappears. */
  datatype Entry = Entry(value: string, expires: int)

  /** A counter; one that was never given an expiry stays until it is deleted. */
  datatype Counter = Counter(count: nat, expires: Option<int>)

  /** Everything stored, with the clock. `tokens` holds the keys token_<hash>, `index` the hashes
      token_account_<id>, `counters` and `locks` the keys login_attempt:<id> and login_lock:<id>.
      `issued` records every token hash ever stored. */
  datatype Store = Store(now: int, tokens: map<string, Entry>, index: map<string, set<string>>, issued: set<string>,
                         counters: map<string, Counter>, locks: map<string, int>)

  predicate Alive(s: Store, token: string) {
    token in s.tokens && s.now < s.tokens[token].expires
  }

  function Index(s: Store, id: string): set<string> {
    if id in s.index then s.index[id] else {}
  }

  predicate Indexed(s: Store, id: string, token: string) {
    token in Index(s, id)
  }

  predicate CounterAlive(s: Store, key: string) {
    key in s.counters && (s.counters[key].expires.Some? ==> s.now < s.counters[key].expires.value)
  }

  predicate Locked(s: Store, key: string) {
    key in s.locks && s.now < s.locks[key]
  }

  class Client {
    var now: int
    var tokens: map<string, Entry>
    var index: map<string, set<string>>
    var counters: map<string, Counter>
    var locks: map<string, int>
    ghost var issued: set<string>
    /** The store after every command so far. */
    ghost var trace: seq<Store>

    ghost function Snapshot(): (s: Store)
      reads this
    {
      Store(now, tokens, index, issued, counters, locks)
    }

    constructor ()
      ensures Snapshot() == Store(0, map[], map[], {}, map[], map[]) && trace == []
    {
      now, tokens, index, counters, locks := 0, map[], map[], map[], map[];
      issued, trace := {}, [];
    }

    method Tick()
      modifies `now
      ensures now >= old(now)
    {
      var later :| now <= later;
      now := later;
    }

    ghost method Record()
      modifies `trace
      ensures trace == old(trace) + [Snapshot()]
    {
      trace := trace + [Snapshot()];
    }

    method HGetAll(id: string) returns (fields: set<string>)
      modifies `now, `trace
      ensures now >= old(now)
      ensures fields == Index(Snapshot(), id)
      ensures trace == old(trace) + [Snapshot()]
    {
      Tick();
      fields := if id in index then index[id] else {};
      Record();
    }

    method Exists(token: string) returns (found: bool)
      modifies `now, `trace
      ensures now >= old(now)
      ensures found == Alive(Snapshot(), token)
      ensures trace == old(trace) + [Snapshot()]
    {
      Tick();
      found := token in tokens && now < tokens[token].expires;
      Record();
    }

    method Get(token: string) returns (value: Option<string>)
      modifies `now, `trace
      ensures now >= old(now)
      ensures value == if Alive(Snapshot(), token) then Some(tokens[token].value) else None
      ensures trace == old(trace) + [Snapshot()]
    {
      Tick();
      value := if token in tokens && now < tokens[token].expires then Some(tokens[token].value) else None;
      Record();
    }

    /** Remaining time, or -2 for a key that is not there. */
    method TTL(token: string) returns (ttl: int)
      modifies `now, `trace
      ensures now >= old(now)
      ensures ttl == if Alive(Snapshot(), token) then tokens[token].expires - now else -2
      ensures trace == old(trace) + [Snapshot()]
    {
      Tick();
      ttl := if token in tokens && now < tokens[token].expires then tokens[token].expires - now else -2;
      Record();
    }

    method HLen(id: string) returns (n: nat)
      modifies `now, `trace
      ensures now >= old(now)
      ensures n == |Index(Snapshot(), id)|
      ensures trace == old(trace) + [Snapshot()]
    {
      Tick();
      n := if id in index then |index[id]| else 0;
      Record();
    }

    method HDel(id: string, fields: set<string>)
      modifies `now, `trace, `index
      ensures now >= old(now)
      ensures index == old(index)[id := Index(old(Snapshot()), id) - fields]
      ensures trace == old(trace) + [Snapshot()]
    {
      Tick();
      index := index[id := (if id in index then index[id] else {}) - fields];
      Record();
    }

    method HSet(id: string, field: string)
      modifies `now, `trace, `index
      ensures now >= old(now)
      ensures index == old(index)[id := Index(old(Snapshot()), id) + {field}]
      ensures trace == old(trace) + [Snapshot()]
    {
      Tick();
      index := index[id := (if id in index then index[id] else {}) + {field}];
      Record();
    }

    method Set(token: string, value: string, expiresIn: int)
      modifies `now, `trace, `tokens, `issued
      ensures now >= old(now)
      ensures tokens == old(tokens)[token := Entry(value, now + expiresIn)]
      ensures issued == old(issued) + {token}
      ensures trace == old(trace) + [Snapshot()]
    {
      Tick();
      tokens := tokens[token := Entry(value, now + expiresIn)];
      issued := issued + {token};
      Record();
    }

    /** DEL of any number of token keys, none included. */
    method Del(keys: set<string>)
      modifies `now, `trace, `tokens
      ensures now >= old(now)
      ensures tokens == old(tokens) - keys
      ensures trace == old(trace) + [Snapshot()]
    {
      Tick();
      tokens := tokens - keys;
      Record();
    }

    method DelIndex(id: string)
      modifies `now, `trace, `index
      ensures now >= old(now)
      ensures index == old(index) - {id}
      ensures trace == old(trace) + [Snapshot()]
    {
      Tick();
      index := index - {id};
      Record();
    }

    // -------------------------------------------------------------- counters and locks

    method LockTTL(key: string) returns (ttl: int)
      modifies `now, `trace
      ensures now >= old(now)
      ensures ttl == if Locked(Snapshot(), key) then locks[key] - now else -2
      ensures trace == old(trace) + [Snapshot()]
    {
      Tick();
      ttl := if key in locks && now < locks[key] then locks[key] - now else -2;
      Record();
    }

    /** INCR keeps the expiry of a live counter and starts a missing one at 1 without expiry. */
    method Incr(key: string) returns (n: nat)
      modifies `now, `trace, `counters
      ensures now >= old(now)
      ensures var was := old(Snapshot()).(now := now);
              counters == old(counters)[key := if CounterAlive(was, key)
                                               then Counter(was.counters[key].count + 1, was.counters[key].expires)
                                               else Counter(1, None)]
      ensures n == counters[key].count
      ensures trace == old(trace) + [Snapshot()]
    {
      Tick();
      if key in counters && (counters[key].expires.Some? ==> now < counters[key].expires.value) {
        counters := counters[key := Counter(counters[key].count + 1, counters[key].expires)];
      } else {
        counters := counters[key := Counter(1, None)];
      }
      n := counters[key].count;
      Record();
    }

    method Expire(key: string, expiresIn: int)
      modifies `now, `trace, `counters
      ensures now >= old(now)
      ensures var was := old(Snapshot()).(now := now);
              counters == if CounterAlive(was, key)
                          then old(counters)[key := Counter(was.counters[key].count, Some(now + expiresIn))]
                          else old(counters)
      ensures trace == old(trace) + [Snapshot()]
    {
      Tick();
      if key in counters && (counters[key].expires.Some? ==> now < counters[key].expires.value) {
        counters := counters[key := Counter(counters[key].count, Some(now + expiresIn))];
      }
      Record();
    }

    method SetLock(key: string, expiresIn: int)
      modifies `now, `trace, `locks
      ensures now >= old(now)
      ensures locks == old(locks)[key := now + expiresIn]
      ensures trace == old(trace) + [Snapshot()]
    {
      Tick();
      locks := locks[key := now + expiresIn];
      Record();
    }

    method DelCounter(key: string)
      modifies `now, `trace, `counters
      ensures now >= old(now)
      ensures counters == old(counters) - {key}
      ensures trace == old(trace) + [Snapshot()]
    {
      Tick();
      counters := counters - {key};
      Record();
    }

    /** DEL of a counter and a lock in one command. */
    method DelCounterAndLock(counter: string, lock: string)
      modifies `now, `trace, `counters, `locks
      ensures now >= old(now)
      ensures counters == old(counters) - {counter} && locks == old(locks) - {lock}
      ensures trace == old(trace) + [Snapshot()]
    {
      Tick();
      counters, locks := counters - {counter}, locks - {lock};
      Record();
    }
  }
}
