/** Service registration under a lease (lib/etcd/register.go): the keep-alive loop, lease expiry and any
    number of calls of the revoke function interleave in any way. */
module Lease {
  import R = Runs
  import opened Options

  type LeaseID = int
  type CallID = int

  /** Where the registering goroutine is. The first registration takes the same three calls as a
      re-registration, and gives up where the loop would retry. */
  datatype Phase =
    | Idle
    | Granting
    | Putting(id: LeaseID)
    | KeepingAlive(id: LeaseID)
    | Storing(id: LeaseID)
    | Stopped

  /** `leases` are alive on the server, `used` were ever granted, `key` is the lease the service key is
      attached to, and `stored` is the atomic lease id. `loaded` holds what each call of the revoke
      function read from it, and `sent` the calls whose request is over. */
  datatype State = State(
    leases: set<LeaseID>,
    used: set<LeaseID>,
    key: Option<LeaseID>,
    stored: Option<LeaseID>,
    phase: Phase,
    loaded: map<CallID, LeaseID>,
    sent: set<CallID>)

  datatype Event =
    | Expire(id: LeaseID)
    | ChannelClosed
    | GrantOk(id: LeaseID)
    | GrantFailed(left: Option<LeaseID>)
    | PutOk
    | PutFailed(applied: bool)
    | KeepAliveOk
    | KeepAliveFailed
    | Store
    | Load(call: CallID)
    | Revoke(call: CallID, applied: bool)
    | Stop

  /** Nothing granted yet. */
  const START := State({}, {}, None, None, Granting, map[], {})

  /** A lease ends on the server, and with it a key attached to it. */
  function Ended(s: State, id: LeaseID): State {
    s.(leases := s.leases - {id}, key := if s.key == Some(id) then None else s.key)
  }

  /** After a failed call the loop tries again, and the first registration returns the error. */
  function AfterFailure(s: State): Phase {
    if s.stored.None? then Stopped else Granting
  }

  /** A grant that took effect on the server. */
  function Granted(s: State, id: LeaseID): State {
    s.(leases := s.leases + {id}, used := s.used + {id})
  }

  /** One step. A failed grant, put or revoke may have taken effect on the server all the same. The revoke
      function first loads the lease id and then sends the request; the loop may go on in between. */
  ghost predicate Next(s: State, e: Event, s': State) {
    match e
    case Expire(id) => id in s.leases && s' == Ended(s, id)
    case ChannelClosed => s.phase == Idle && s' == s.(phase := Granting)
    case GrantOk(id) => s.phase == Granting && id !in s.used && s' == Granted(s, id).(phase := Putting(id))
    case GrantFailed(left) =>
      && s.phase == Granting
      && (left.Some? ==> left.value !in s.used)
      && s' == (if left.Some? then Granted(s, left.value) else s).(phase := AfterFailure(s))
    case PutOk =>
      && s.phase.Putting? && s.phase.id in s.leases
      && s' == s.(key := Some(s.phase.id), phase := KeepingAlive(s.phase.id))
    case PutFailed(applied) =>
      && s.phase.Putting? && (applied ==> s.phase.id in s.leases)
      && s' == s.(key := if applied then Some(s.phase.id) else s.key, phase := AfterFailure(s))
    case KeepAliveOk => s.phase.KeepingAlive? && s' == s.(phase := Storing(s.phase.id))
    case KeepAliveFailed => s.phase.KeepingAlive? && s' == s.(phase := AfterFailure(s))
    case Store => s.phase.Storing? && s' == s.(stored := Some(s.phase.id), phase := Idle)
    case Load(call) =>
      s.stored.Some? && call !in s.loaded && s' == s.(loaded := s.loaded[call := s.stored.value])
    case Revoke(call, applied) =>
      && call in s.loaded && call !in s.sent
      && s' == (if applied then Ended(s, s.loaded[call]) else s).(sent := s.sent + {call})
    case Stop => (s.phase == Idle || s.phase == Granting) && s' == s.(phase := Stopped)
  }

  ghost predicate IsRun(states: seq<State>, events: seq<Event>) {
    R.IsRun(states, events, Next) && states[0] == START
  }

  // ---------------------------------------------------------------- the registration invariant

  /** The key hangs on a live lease; while the loop is idle it is the stored one, and from the put to the
      store it is the one just granted. */
  predicate Inv(s: State) {
    && s.leases <= s.used
    && (s.key.Some? ==> s.key.value in s.leases)
    && (s.stored.Some? ==> s.stored.value in s.used)
    && (s.phase == Idle ==> s.stored.Some? && (s.key.Some? ==> s.key == s.stored))
    && (s.phase.Putting? ==> s.phase.id in s.used && s.stored != Some(s.phase.id))
    && (s.phase.KeepingAlive? || s.phase.Storing? ==>
          s.phase.id in s.used && s.stored != Some(s.phase.id) && (s.key.Some? ==> s.key == Some(s.phase.id)))
  }

  lemma NextKeeps(s: State, e: Event, s': State)
    requires Inv(s) && Next(s, e, s')
    ensures Inv(s')
  {
  }

  lemma Reachable(states: seq<State>, events: seq<Event>, i: nat)
    requires IsRun(states, events) && i <= |events|
    ensures Inv(states[i])
  {
    forall s, e, s' | Inv(s) && Next(s, e, s')
      ensures Inv(s')
    {
      NextKeeps(s, e, s');
    }
    R.HoldsAt(states, events, Next, Inv, (e: Event) => true, 0, i);
  }

  /** In every run, whenever the loop is idle: the key, if present, is attached to the stored lease, and the
      end of any other lease, in particular of one left by a failed attempt, leaves the registration. */
  lemma IdleRegistration(states: seq<State>, events: seq<Event>, i: nat)
    requires IsRun(states, events) && i <= |events| && states[i].phase == Idle
    ensures states[i].stored.Some?
    ensures states[i].key.Some? ==> states[i].key == states[i].stored && states[i].key.value in states[i].leases
    ensures i < |events| && events[i].Expire? && Some(events[i].id) != states[i].stored ==>
              states[i + 1].key == states[i].key
  {
    Reachable(states, events, i);
    if i < |events| {
      assert R.Linked(states, events, Next, i);
    }
  }

  // ---------------------------------------------------------------- what the history says

  /** What can be told from the events alone: the last lease granted to the loop, the lease of the last put
      that took effect, whether that put came after the last store, the lease stored, what each revoke loaded,
      which loads came after the last store, and the leases that ended. */
  datatype History = History(
    granted: Option<LeaseID>,
    put: Option<LeaseID>,
    putSinceStore: bool,
    stored: Option<LeaseID>,
    loaded: map<CallID, Option<LeaseID>>,
    loadedSinceStore: set<CallID>,
    ended: set<LeaseID>)

  const NOTHING := History(None, None, false, None, map[], {}, {})

  function Recall(h: History, e: Event): History {
    match e
    case GrantOk(id) => h.(granted := Some(id))
    case PutOk => h.(put := h.granted, putSinceStore := true)
    case PutFailed(applied) => if applied then h.(put := h.granted, putSinceStore := true) else h
    case Store => h.(stored := h.granted, putSinceStore := false, loadedSinceStore := {})
    case Load(call) => h.(loaded := h.loaded[call := h.stored], loadedSinceStore := h.loadedSinceStore + {call})
    case Expire(id) => h.(ended := h.ended + {id})
    case Revoke(call, applied) =>
      if applied && call in h.loaded && h.loaded[call].Some? then h.(ended := h.ended + {h.loaded[call].value}) else h
    case _ => h
  }

  function HistoryOf(events: seq<Event>): History {
    if events == [] then NOTHING
    else Recall(HistoryOf(events[..|events| - 1]), events[|events| - 1])
  }

  /** The lease of the last put that took effect has ended, or there was no such put. */
  predicate PutGone(h: History) {
    h.put.Some? ==> h.put.value in h.ended
  }

  /** The history knows what is stored and what the revokes loaded. */
  ghost predicate KnowsLoads(h: History, s: State) {
    && s.stored == h.stored
    && (forall c :: c in s.loaded <==> c in h.loaded)
    && (forall c :: c in s.loaded ==> h.loaded[c] == Some(s.loaded[c]) && s.loaded[c] in s.used)
    && (forall c :: c in h.loadedSinceStore ==> c in h.loaded && h.loaded[c] == h.stored)
    && (s.phase.Putting? || s.phase.KeepingAlive? || s.phase.Storing? ==> h.granted == Some(s.phase.id))
  }

  /** The history explains the key: it is there exactly while the lease of the last put lives. */
  ghost predicate KnowsKey(h: History, s: State) {
    && s.key == (if PutGone(h) then None else h.put)
    && (forall id :: id in s.leases ==> id !in h.ended)
    && h.ended <= s.used
    && (h.put.Some? ==> h.put.value in s.used)
    && (s.phase.Putting? ==> h.put != h.granted)
    && (s.phase.KeepingAlive? || s.phase.Storing? ==> h.put == h.granted)
    && (s.phase == Idle ==> !h.putSinceStore)
    && (!h.putSinceStore ==> h.put == h.stored)
    && (h.putSinceStore ==> h.put.Some? && h.put != h.stored)
  }

  ghost predicate Explains(h: History, s: State) {
    KnowsLoads(h, s) && KnowsKey(h, s)
  }

  lemma LoadsStep(h: History, s: State, e: Event, s': State)
    requires Inv(s) && KnowsLoads(h, s) && Next(s, e, s')
    ensures KnowsLoads(Recall(h, e), s')
  {
  }

  lemma KeyStep(h: History, s: State, e: Event, s': State)
    requires Inv(s) && Explains(h, s) && Next(s, e, s')
    ensures KnowsKey(Recall(h, e), s')
  {
    if e.Revoke? && e.applied {
      assert h.loaded[e.call] == Some(s.loaded[e.call]);
    }
  }

  lemma {:induction false} HistoryExplains(states: seq<State>, events: seq<Event>, i: nat)
    requires IsRun(states, events) && i <= |events|
    ensures Explains(HistoryOf(events[..i]), states[i])
    decreases i
  {
    if i > 0 {
      HistoryExplains(states, events, i - 1);
      Reachable(states, events, i - 1);
      assert R.Linked(states, events, Next, i - 1);
      LoadsStep(HistoryOf(events[..i - 1]), states[i - 1], events[i - 1], states[i]);
      KeyStep(HistoryOf(events[..i - 1]), states[i - 1], events[i - 1], states[i]);
      assert events[..i][..i - 1] == events[..i - 1];
    }
  }

  // ---------------------------------------------------------------- when the loop ends

  /** A loop that has registered once ends only by Stop: whatever fails, it goes on. */
  lemma OnlyStopEnds(states: seq<State>, events: seq<Event>, i: nat, j: nat)
    requires IsRun(states, events) && i < j <= |events| && events[i] == Store
    requires forall k :: i < k < j ==> events[k] != Stop
    ensures states[j].phase != Stopped
  {
    assert R.Linked(states, events, Next, i);
    var going := (s: State) => s.stored.Some? && s.phase != Stopped;
    R.HoldsAt(states, events, Next, going, (e: Event) => e != Stop, i + 1, j);
  }

  predicate Failed(e: Event) {
    e.GrantFailed? || e.PutFailed? || e.KeepAliveFailed?
  }

  /** The first registration gives up at its first failed call; afterwards a failed call is followed by another
      grant. */
  lemma AfterAFailure(states: seq<State>, events: seq<Event>, i: nat)
    requires IsRun(states, events) && i < |events| && Failed(events[i])
    ensures states[i + 1].phase == if Store in events[..i] then Granting else Stopped
  {
    assert R.Linked(states, events, Next, i);
    if Store in events[..i] {
      var k :| 0 <= k < i && events[k] == Store;
      assert R.Linked(states, events, Next, k);
      R.HoldsAt(states, events, Next, (s: State) => s.stored.Some?, (e: Event) => true, k + 1, i);
    } else {
      assert forall k :: 0 <= k < i ==> events[k] in events[..i];
      R.HoldsAt(states, events, Next, (s: State) => s.stored.None?, (e: Event) => e != Store, 0, i);
    }
  }

  // ---------------------------------------------------------------- when a revoke removes the key

  /** A revoke that takes effect leaves no key if and only if the lease of the last put that took effect is the
      one this revoke loaded, or had ended before. */
  lemma RevokeRemovesIff(states: seq<State>, events: seq<Event>, i: nat)
    requires IsRun(states, events) && i < |events| && events[i].Revoke? && events[i].applied
    ensures var h := HistoryOf(events[..i]);
            && events[i].call in h.loaded
            && (states[i + 1].key == None <==> PutGone(h) || h.put == h.loaded[events[i].call])
  {
    HistoryExplains(states, events, i);
    assert R.Linked(states, events, Next, i);
  }

  /** For a revoke that loaded its id after the last store: it leaves no key if and only if no put took effect
      since that store, or the lease of that put had ended. */
  lemma FreshRevokeRemovesIff(states: seq<State>, events: seq<Event>, i: nat)
    requires IsRun(states, events) && i < |events| && events[i].Revoke? && events[i].applied
    requires events[i].call in HistoryOf(events[..i]).loadedSinceStore
    ensures var h := HistoryOf(events[..i]); states[i + 1].key == None <==> !h.putSinceStore || PutGone(h)
  {
    HistoryExplains(states, events, i);
    RevokeRemovesIff(states, events, i);
  }

  /** So while the loop is idle such a revoke always removes the key. */
  lemma IdleRevokeRemoves(states: seq<State>, events: seq<Event>, i: nat)
    requires IsRun(states, events) && i < |events| && events[i].Revoke? && events[i].applied
    requires states[i].phase == Idle && events[i].call in HistoryOf(events[..i]).loadedSinceStore
    ensures states[i + 1].key == None
  {
    HistoryExplains(states, events, i);
    FreshRevokeRemovesIff(states, events, i);
  }

  /** The loads after the last store, on the events themselves. */
  lemma {:induction false} LoadedSinceStore(events: seq<Event>, call: CallID)
    ensures call in HistoryOf(events).loadedSinceStore <==>
            exists k :: && 0 <= k < |events| && events[k] == Load(call)
                        && forall m :: k < m < |events| ==> events[m] != Store
    decreases |events|
  {
    if events != [] {
      var n := |events| - 1;
      var before := events[..n];
      LoadedSinceStore(before, call);
      if events[n] == Load(call) {
        assert forall m :: n < m < |events| ==> events[m] != Store;
      } else if events[n] != Store && call in HistoryOf(before).loadedSinceStore {
        var k :| 0 <= k < n && before[k] == Load(call) && forall m :: k < m < n ==> before[m] != Store;
        assert events[k] == Load(call);
        assert forall m :: k < m < |events| ==> events[m] != Store;
      }
    }
  }

  // ---------------------------------------------------------------- runs in which it does not

  /** One more step of a run. */
  lemma Then(states: seq<State>, events: seq<Event>, e: Event, s': State)
    returns (longer: seq<State>, more: seq<Event>)
    requires R.IsRun(states, events, Next) && Next(states[|events|], e, s')
    ensures R.IsRun(longer, more, Next) && more == events + [e] && longer == states + [s']
  {
    R.Extend(states, events, Next, e, s');
    longer, more := states + [s'], events + [e];
  }

  /** A registration that succeeds. */
  lemma Register(id: LeaseID) returns (states: seq<State>, events: seq<Event>)
    ensures IsRun(states, events) && states[|events|] == State({id}, {id}, Some(id), Some(id), Idle, map[], {})
  {
    states, events := [START], [];
    var s := Granted(START, id).(phase := Putting(id));
    states, events := Then(states, events, GrantOk(id), s);
    s := s.(key := Some(id), phase := KeepingAlive(id));
    states, events := Then(states, events, PutOk, s);
    s := s.(phase := Storing(id));
    states, events := Then(states, events, KeepAliveOk, s);
    s := s.(stored := Some(id), phase := Idle);
    states, events := Then(states, events, Store, s);
  }

  /** From the idle loop to the put of another registration. */
  lemma PutAgain(states: seq<State>, events: seq<Event>, id: LeaseID)
    returns (longer: seq<State>, more: seq<Event>)
    requires IsRun(states, events) && states[|events|].phase == Idle && id !in states[|events|].used
    ensures IsRun(longer, more) && events <= more && states <= longer
    ensures longer[|more|] == Granted(states[|events|], id).(key := Some(id), phase := KeepingAlive(id))
  {
    var s := states[|events|].(phase := Granting);
    longer, more := Then(states, events, ChannelClosed, s);
    s := Granted(s, id).(phase := Putting(id));
    longer, more := Then(longer, more, GrantOk(id), s);
    s := s.(key := Some(id), phase := KeepingAlive(id));
    longer, more := Then(longer, more, PutOk, s);
  }

  /** Between a put and the store that follows it a revoke misses the key. */
  lemma RevokeCanMiss() returns (states: seq<State>, events: seq<Event>)
    ensures IsRun(states, events) && |events| > 0 && events[|events| - 1] == Revoke(0, true)
    ensures states[|events|].key.Some?
  {
    states, events := Register(1);
    states, events := PutAgain(states, events, 2);
    var s := states[|events|].(loaded := map[0 := 1]);
    states, events := Then(states, events, Load(0), s);
    s := Ended(s, 1).(sent := {0});
    states, events := Then(states, events, Revoke(0, true), s);
  }

  /** A revoke that loaded its id while the loop was idle and takes effect while it is idle misses the key if
      the loop registered again in between. */
  lemma StaleRevokeCanMiss() returns (states: seq<State>, events: seq<Event>, i: nat)
    ensures IsRun(states, events) && i + 1 < |events|
    ensures events[i] == Load(0) && states[i].phase == Idle
    ensures events[|events| - 1] == Revoke(0, true) && states[|events| - 1].phase == Idle
    ensures states[|events|].key.Some?
  {
    states, events := Register(1);
    i := |events|;
    var s := states[i].(loaded := map[0 := 1]);
    states, events := Then(states, events, Load(0), s);
    states, events := PutAgain(states, events, 2);
    s := states[|events|].(phase := Storing(2));
    states, events := Then(states, events, KeepAliveOk, s);
    s := s.(stored := Some(2), phase := Idle);
    states, events := Then(states, events, Store, s);
    s := Ended(s, 1).(sent := {0});
    states, events := Then(states, events, Revoke(0, true), s);
  }

  /** A revoke that removed the key is undone by the loop, which takes the closed channel for a lost lease. */
  lemma RevokeCanBeUndone() returns (states: seq<State>, events: seq<Event>, i: nat)
    ensures IsRun(states, events) && i + 1 < |events| && events[i] == Revoke(0, true) && states[i].phase == Idle
    ensures states[i + 1].key == None && states[|events|].key.Some?
  {
    states, events := Register(1);
    var s := states[|events|].(loaded := map[0 := 1]);
    states, events := Then(states, events, Load(0), s);
    i := |events|;
    s := Ended(s, 1).(sent := {0});
    states, events := Then(states, events, Revoke(0, true), s);
    states, events := PutAgain(states, events, 2);
  }

  // ---------------------------------------------------------------- when the key stays gone

  /** No continuation of the run has the key. */
  ghost predicate GoneForGood(s: State) {
    forall states: seq<State>, events: seq<Event> ::
      R.IsRun(states, events, Next) && states[0] == s ==> states[|events|].key == None
  }

  /** The loop has stopped, or the first registration lost its lease before the put. */
  predicate Finished(s: State) {
    s.phase == Stopped || (s.phase.Putting? && s.stored.None? && s.phase.id !in s.leases)
  }

  lemma FinishedStays(s: State, e: Event, s': State)
    requires Inv(s) && s.key == None && Finished(s) && Next(s, e, s')
    ensures s'.key == None && Finished(s')
  {
  }

  lemma FinishedIsFinal(s: State)
    requires Inv(s) && s.key == None && Finished(s)
    ensures GoneForGood(s)
  {
    var inv := (s: State) => Inv(s) && s.key == None && Finished(s);
    forall s, e, s' | inv(s) && Next(s, e, s')
      ensures inv(s')
    {
      NextKeeps(s, e, s');
      FinishedStays(s, e, s');
    }
    forall states: seq<State>, events: seq<Event> | R.IsRun(states, events, Next) && states[0] == s
      ensures states[|events|].key == None
    {
      R.HoldsAt(states, events, Next, inv, (e: Event) => true, 0, |events|);
    }
  }

  lemma {:induction false} FreshLease(used: set<LeaseID>) returns (id: LeaseID)
    ensures forall u :: u in used ==> u < id
  {
    id := 0;
    if u :| u in used {
      var rest := FreshLease(used - {u});
      id := if rest <= u then u + 1 else rest;
      forall w | w in used
        ensures w < id
      {
        assert w == u || w in used - {u};
      }
    }
  }

  /** From a loop that is about to grant, the key comes back. */
  lemma GrantBrings(states: seq<State>, events: seq<Event>)
    returns (longer: seq<State>, more: seq<Event>)
    requires R.IsRun(states, events, Next) && states[|events|].phase == Granting
    ensures R.IsRun(longer, more, Next) && longer[0] == states[0] && longer[|more|].key.Some?
  {
    var id := FreshLease(states[|events|].used);
    var s := Granted(states[|events|], id).(phase := Putting(id));
    longer, more := Then(states, events, GrantOk(id), s);
    s := s.(key := Some(id), phase := KeepingAlive(id));
    longer, more := Then(longer, more, PutOk, s);
  }

  lemma IdleBrings(states: seq<State>, events: seq<Event>)
    returns (longer: seq<State>, more: seq<Event>)
    requires R.IsRun(states, events, Next) && states[|events|].phase == Idle
    ensures R.IsRun(longer, more, Next) && longer[0] == states[0] && longer[|more|].key.Some?
  {
    longer, more := Then(states, events, ChannelClosed, states[|events|].(phase := Granting));
    longer, more := GrantBrings(longer, more);
  }

  /** From every other state some continuation brings the key. */
  lemma KeyCanReturn(s: State) returns (states: seq<State>, events: seq<Event>)
    requires !Finished(s)
    ensures R.IsRun(states, events, Next) && states[0] == s && states[|events|].key.Some?
  {
    states, events := [s], [];
    match s.phase
    case Idle => states, events := IdleBrings(states, events);
    case Granting => states, events := GrantBrings(states, events);
    case Putting(id) =>
      if id in s.leases {
        states, events := Then(states, events, PutOk, s.(key := Some(id), phase := KeepingAlive(id)));
      } else {
        states, events := Then(states, events, PutFailed(false), s.(phase := Granting));
        states, events := GrantBrings(states, events);
      }
    case KeepingAlive(id) =>
      states, events := Then(states, events, KeepAliveOk, s.(phase := Storing(id)));
      states, events := Then(states, events, Store, s.(stored := Some(id), phase := Idle));
      states, events := IdleBrings(states, events);
    case Storing(id) =>
      states, events := Then(states, events, Store, s.(stored := Some(id), phase := Idle));
      states, events := IdleBrings(states, events);
  }

  /** In every run, a key that is gone stays gone in all continuations if and only if the loop has stopped, or
      the first registration lost its lease before the put. Once a registration has succeeded, and so whenever
      there is a revoke function to call, only the stopped loop is left. */
  lemma GoneForGoodIff(states: seq<State>, events: seq<Event>, i: nat)
    requires IsRun(states, events) && i <= |events| && states[i].key == None
    ensures GoneForGood(states[i]) <==> Finished(states[i])
    ensures states[i].stored.Some? ==> (GoneForGood(states[i]) <==> states[i].phase == Stopped)
  {
    Reachable(states, events, i);
    if Finished(states[i]) {
      FinishedIsFinal(states[i]);
    } else {
      var more, steps := KeyCanReturn(states[i]);
      assert R.IsRun(more, steps, Next) && more[0] == states[i] && more[|steps|].key != None;
    }
  }
}
