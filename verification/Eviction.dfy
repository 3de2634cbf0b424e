/** The search for the oldest token in evictOldestToken (lib/auth/statetoken.go): remaining times are read one
    after the other while the clock goes on. */
module Eviction {
  import opened Redis

  /** What TTL returns for a token at a time: the remaining time, or -2. */
  function TTLAt(entries: map<string, Entry>, token: string, at: int): int {
    if token in entries && at < entries[token].expires then entries[token].expires - at else -2
  }

  datatype Best = Best(token: string, ttl: int)

  /** The loop over the listed tokens, token i read at times[i]. */
  function BestOf(entries: map<string, Entry>, tokens: seq<string>, times: seq<int>): Best
    requires |times| == |tokens|
  {
    if tokens == [] then Best("", -1)
    else
      var n := |tokens| - 1;
      var best, ttl := BestOf(entries, tokens[..n], times[..n]), TTLAt(entries, tokens[n], times[n]);
      if best.ttl == -1 || ttl < best.ttl then Best(tokens[n], ttl) else best
  }

  function Chosen(entries: map<string, Entry>, tokens: seq<string>, times: seq<int>): string
    requires tokens != [] && |times| == |tokens|
  {
    var best := BestOf(entries, tokens, times);
    if best.token != "" then best.token else tokens[0]
  }

  predicate Forward(times: seq<int>) {
    forall i, j :: 0 <= i <= j < |times| ==> times[i] <= times[j]
  }

  /** One round of the loop: token i is read at time `at`. */
  lemma BestStep(entries: map<string, Entry>, tokens: seq<string>, times: seq<int>, i: nat, at: int)
    requires i < |tokens| && |times| == i
    ensures BestOf(entries, tokens[..i + 1], times + [at])
         == var best, ttl := BestOf(entries, tokens[..i], times), TTLAt(entries, tokens[i], at);
            if best.ttl == -1 || ttl < best.ttl then Best(tokens[i], ttl) else best
  {
    assert tokens[..i + 1][..i] == tokens[..i] && (times + [at])[..i] == times;
  }

  /** Readings in order, between two times. */
  predicate Readings(times: seq<int>, from: int, to: int) {
    Forward(times) && forall k :: 0 <= k < |times| ==> from <= times[k] <= to
  }

  lemma ReadOnce(times: seq<int>, from: int, to: int, at: int)
    requires Readings(times, from, to) && from <= to <= at
    ensures Readings(times + [at], from, at)
  {
  }

  /** The loop ends with the first token of least reading. */
  lemma {:induction false} BestIsFirstLeast(entries: map<string, Entry>, tokens: seq<string>, times: seq<int>)
    returns (i: nat)
    requires tokens != [] && |times| == |tokens|
    ensures i < |tokens| && BestOf(entries, tokens, times) == Best(tokens[i], TTLAt(entries, tokens[i], times[i]))
    ensures forall j :: i <= j < |tokens| ==> TTLAt(entries, tokens[i], times[i]) <= TTLAt(entries, tokens[j], times[j])
    ensures forall j :: 0 <= j < i ==> TTLAt(entries, tokens[i], times[i]) < TTLAt(entries, tokens[j], times[j])
    decreases |tokens|
  {
    var n := |tokens| - 1;
    if n == 0 {
      assert tokens[..0] == [];
      i := 0;
    } else {
      var k := BestIsFirstLeast(entries, tokens[..n], times[..n]);
      i := if TTLAt(entries, tokens[n], times[n]) < TTLAt(entries, tokens[k], times[k]) then n else k;
    }
  }

  // ---------------------------------------------------------------- when the choice is exact

  /** Every listed token is live when it is read. */
  predicate AllLive(entries: map<string, Entry>, tokens: seq<string>, times: seq<int>)
    requires |times| == |tokens|
  {
    forall i :: 0 <= i < |tokens| ==> TTLAt(entries, tokens[i], times[i]) > 0
  }

  /** No listed token expires before `target`. */
  predicate Least(entries: map<string, Entry>, tokens: seq<string>, target: string) {
    target in entries &&
    forall i :: 0 <= i < |tokens| ==> tokens[i] in entries && entries[target].expires <= entries[tokens[i]].expires
  }

  predicate Listing(tokens: seq<string>, times: seq<int>) {
    && tokens != [] && "" !in tokens && |times| == |tokens| && Forward(times)
    && forall i, j :: 0 <= i < j < |tokens| ==> tokens[i] != tokens[j]
  }

  lemma ChosenLeast(entries: map<string, Entry>, tokens: seq<string>, times: seq<int>)
    requires Listing(tokens, times) && AllLive(entries, tokens, times) && times[|times| - 1] - times[0] <= 1
    ensures Least(entries, tokens, Chosen(entries, tokens, times))
  {
    var i := BestIsFirstLeast(entries, tokens, times);
    assert tokens[i] in tokens;
    assert TTLAt(entries, tokens[i], times[i]) > 0;
    forall j | 0 <= j < |tokens|
      ensures tokens[j] in entries && entries[tokens[i]].expires <= entries[tokens[j]].expires
    {
      assert TTLAt(entries, tokens[j], times[j]) > 0;
      assert times[0] <= times[j] <= times[|times| - 1] && times[0] <= times[i] <= times[|times| - 1];
      if i < j {
        assert times[i] <= times[j];
      }
    }
  }

  /** Expiries that mislead the search: the first token expires at `first`, the last one unit later, the others
      much later. */
  function Misleading(tokens: seq<string>, first: int, far: int): map<string, Entry> {
    map t | t in tokens ::
      Entry("", if t == tokens[0] then first else if t == tokens[|tokens| - 1] then first + 1 else far)
  }

  lemma ChosenErrs(tokens: seq<string>, times: seq<int>) returns (entries: map<string, Entry>)
    requires Listing(tokens, times) && times[|times| - 1] - times[0] >= 2
    ensures AllLive(entries, tokens, times) && !Least(entries, tokens, Chosen(entries, tokens, times))
  {
    var n := |tokens| - 1;
    var first, last := tokens[0], tokens[n];
    var e := times[n] + 1;
    entries := Misleading(tokens, e, e + 10);
    assert first in tokens && last in tokens && first != last;
    forall i | 0 <= i < |tokens|
      ensures TTLAt(entries, tokens[i], times[i]) > 0
      ensures i < n ==> TTLAt(entries, tokens[i], times[i]) > TTLAt(entries, last, times[n])
    {
      assert tokens[i] in tokens;
      assert times[i] <= times[n];
    }
    var i := BestIsFirstLeast(entries, tokens, times);
    assert i == n;
    assert Chosen(entries, tokens, times) == last;
    assert entries[tokens[0]].expires < entries[last].expires;
  }

  /** The search finds a token that expires first, whatever the expiries, if and only if the clock moves by at
      most one unit from the first reading to the last. */
  lemma ChosenLeastIff(tokens: seq<string>, times: seq<int>)
    requires Listing(tokens, times)
    ensures (forall entries ::
              AllLive(entries, tokens, times) ==> Least(entries, tokens, Chosen(entries, tokens, times)))
       <==> times[|times| - 1] - times[0] <= 1
  {
    if times[|times| - 1] - times[0] <= 1 {
      forall entries | AllLive(entries, tokens, times)
        ensures Least(entries, tokens, Chosen(entries, tokens, times))
      {
        ChosenLeast(entries, tokens, times);
      }
    } else {
      var entries := ChosenErrs(tokens, times);
      assert AllLive(entries, tokens, times) && !Least(entries, tokens, Chosen(entries, tokens, times));
    }
  }

  /** Ten units left when the first is read, six left on the second read five units later: the second is
      chosen although it expires later. */
  lemma LaterExpiringIsChosen()
    ensures var entries := map["a" := Entry("", 10), "b" := Entry("", 11)];
            Chosen(entries, ["a", "b"], [0, 5]) == "b" && entries["a"].expires < entries["b"].expires
  {
    var entries := map["a" := Entry("", 10), "b" := Entry("", 11)];
    var tokens, times := ["a", "b"], [0, 5];
    assert TTLAt(entries, "a", 0) == 10 && TTLAt(entries, "b", 5) == 6;
    assert tokens[..1] == ["a"] && times[..1] == [0] && tokens[..1][..0] == [];
    assert BestOf(entries, tokens[..1], times[..1]) == Best("a", 10);
  }
}
