// What becomes of a stream that was matched to a waiting claim: the claim may
// time out between the match and the delivery, or even have timed out before.
module StreamDelivery {
  import opened StreamRegistry

  ghost predicate Won(s: State, token: string) {
    exists i :: 0 <= i < |s.wins| && s.wins[i].token == token
  }

  /** The claim still waits, or has given up but not yet left the queue. */
  predicate Queued(s: State, id: nat) {
    id in s.claims && (s.claims[id].phase == Waiting || s.claims[id].phase == Removing)
  }

  ghost predicate QueueInv(s: State) {
    forall t, w :: t in s.reg.waiters && w in s.reg.waiters[t] ==> Queued(s, w.id)
  }

  /**
   * A matched claim: while it waits, its stream is on the way to it; it has won
   * exactly when it was answered, and has not when it gave up.
   */
  ghost predicate Fate(s: State, token: string, id: nat) {
    && id in s.claims && s.claims[id].token == token
    && (s.claims[id].phase == Waiting ==> OnTheWay(s, id))
    && (Won(s, token) <==> s.claims[id].phase == Received)
  }

  ghost predicate FateInv(s: State) {
    forall t :: t in s.granted && s.granted[t].ByWaiter? ==> Fate(s, t, s.granted[t].id)
  }

  ghost predicate DeliveryInv(s: State) { Inv(s) && QueueInv(s) && FateInv(s) }

  /** Steps of the senders and receivers add at most one win. */
  lemma WonNext(s: State, s': State, win: Win, token: string)
    requires s'.wins == s.wins + [win]
    ensures Won(s', token) <==> Won(s, token) || win.token == token
  {
    assert s'.wins[|s.wins|] == win;
    if Won(s, token) {
      var i :| 0 <= i < |s.wins| && s.wins[i].token == token;
      assert s'.wins[i].token == token;
    }
  }

  lemma FateFrame(s: State, s': State, token: string, id: nat)
    requires Fate(s, token, id) && s'.wins == s.wins
    requires id in s'.claims && s'.claims[id] == s.claims[id]
    requires s.claims[id].phase == Waiting ==> OnTheWay(s', id)
    ensures Fate(s', token, id)
  {}

  lemma NotYetWon(s: State, token: string)
    requires Inv(s) && token !in s.reg.expired
    ensures !Won(s, token)
  {}

  lemma RegisterFate(s: State, token: string, stream: Stream)
    requires DeliveryInv(s)
    ensures FateInv(Do(s, Action.Register(token, stream)))
  {
    var s' := Do(s, Action.Register(token, stream));
    var (reg, o) := RegisterStep(s.reg, token, Entry(s.nextId, stream));
    if o.Matched? {
      var ws := WaitersOf(s.reg, token);
      var win := o.winner;
      assert win in ws && InQueue(s, token, ws[FirstMatch(ws, stream.expected)]);
      NotYetWon(s, token);
      forall t | t in s'.granted && s'.granted[t].ByWaiter? ensures Fate(s', t, s'.granted[t].id) {
        var id := s'.granted[t].id;
        ClosesMeaning(s.duties, o.losers, id);
        if t != token {
          KeptOnTheWay(s, token, o.losers, id);
          FateFrame(s, s', t, id);
        }
      }
    }
  }

  /** Closing the waiters of one token leaves what is on its way to another alone. */
  lemma KeptOnTheWay(s: State, token: string, losers: seq<Waiter>, id: nat)
    requires Inv(s) && id in s.claims && s.claims[id].token != token
    requires forall w :: w in losers ==> w in WaitersOf(s.reg, token)
    ensures id !in IdsIn(losers)
    ensures OnTheWay(s, id) ==> OnTheWay(s.(duties := Closes(s.duties, losers)), id)
  {
    ClosesMeaning(s.duties, losers, id);
    if id in IdsIn(losers) {
      WaiterOf(s, token, id);
    }
  }

  lemma ClaimFate(s: State, token: string, fingerprint: string)
    requires DeliveryInv(s)
    ensures FateInv(Do(s, Action.Claim(token, fingerprint)))
  {
    var s' := Do(s, Action.Claim(token, fingerprint));
    var (reg, o) := ClaimStep(s.reg, token, fingerprint, s.nextId);
    if o.Granted? {
      forall t | t in s'.granted && s'.granted[t].ByWaiter? ensures Fate(s', t, s'.granted[t].id) {
        var id := s'.granted[t].id;
        assert t != token && Fate(s, t, id);
        WonNext(s, s', Win(token, fingerprint, o.stream), t);
        KeptOnTheWay(s, token, o.losers, id);
      }
    } else if o.Queued? {
      forall t | t in s'.granted && s'.granted[t].ByWaiter? ensures Fate(s', t, s'.granted[t].id) {
        FateFrame(s, s', t, s.granted[t].id);
      }
    }
  }

  lemma ExpireFate(s: State, token: string, entryId: nat)
    requires DeliveryInv(s)
    ensures FateInv(Do(s, Action.Expire(token, entryId)))
  {
    var s' := Do(s, Action.Expire(token, entryId));
    var losers := ExpireStep(s.reg, token, entryId).1;
    forall t | t in s'.granted && s'.granted[t].ByWaiter? ensures Fate(s', t, s'.granted[t].id) {
      var id := s.granted[t].id;
      ClosesMeaning(s.duties, losers, id);
      if losers != [] {
        KeptOnTheWay(s, token, losers, id);
      }
      FateFrame(s, s', t, id);
    }
  }

  lemma DoDutyFate(s: State, k: nat)
    requires DeliveryInv(s) && Enabled(s, DoDuty(k))
    ensures FateInv(Do(s, DoDuty(k)))
  {
    var s' := Do(s, DoDuty(k));
    forall t | t in s'.granted && s'.granted[t].ByWaiter? ensures Fate(s', t, s'.granted[t].id) {
      FateFrame(s, s', t, s.granted[t].id);
    }
  }

  /** An answered claim was the matched one if a stream came with the answer. */
  lemma ReceiveFate(s: State, k: nat)
    requires DeliveryInv(s) && Enabled(s, Receive(k))
    ensures FateInv(Do(s, Receive(k)))
  {
    var s' := Do(s, Receive(k));
    var sent := s.chans[k].sent;
    forall t | t in s'.granted && s'.granted[t].ByWaiter? ensures Fate(s', t, s'.granted[t].id) {
      var id := s.granted[t].id;
      assert Fate(s, t, id);
      if sent.Some? {
        assert Due(s, k, sent.value);
        WonNext(s, s', Win(s.claims[k].token, s.claims[k].fingerprint, sent.value), t);
      }
    }
  }

  lemma LeaveFate(s: State, a: Action)
    requires DeliveryInv(s) && Enabled(s, a) && (a.GiveUp? || a.Remove?)
    ensures FateInv(Do(s, a))
  {
    var s' := Do(s, a);
    forall t | t in s'.granted && s'.granted[t].ByWaiter? ensures Fate(s', t, s'.granted[t].id) {
      assert Fate(s, t, s.granted[t].id);
      assert Won(s', t) <==> Won(s, t);
    }
  }

  /** Only a claim that queues adds a waiter to the queue, and what leaves it is the one that gave up. */
  lemma QueueFrom(s: State, a: Action, t: string, w: Waiter)
    requires Inv(s) && Enabled(s, a) && !a.Claim?
    requires t in Do(s, a).reg.waiters && w in Do(s, a).reg.waiters[t]
    ensures t in s.reg.waiters && w in s.reg.waiters[t]
    ensures a.Remove? ==> w.id != a.id
  {
    if a.Remove? {
      RemoveSubLists(s, a.id);
      LeavesNoOther(s, a.id, t, w);
    }
  }

  lemma LeavesNoOther(s: State, id: nat, t: string, w: Waiter)
    requires Inv(s) && id in s.claims && t in s.reg.waiters && w in s.reg.waiters[t]
    requires t == s.claims[id].token ==> w.id != id
    ensures w.id != id
  {
    var i :| 0 <= i < |s.reg.waiters[t]| && s.reg.waiters[t][i] == w;
    assert InQueue(s, t, s.reg.waiters[t][i]);
  }

  lemma ClaimQueueKept(s: State, token: string, fingerprint: string)
    requires DeliveryInv(s)
    ensures QueueInv(Do(s, Action.Claim(token, fingerprint)))
  {
    var s' := Do(s, Action.Claim(token, fingerprint));
    forall t, w | t in s'.reg.waiters && w in s'.reg.waiters[t] ensures Queued(s', w.id) {
      if t in s.reg.waiters && w in s.reg.waiters[t] {
        assert Queued(s, w.id);
      }
    }
  }

  /** A step other than a claim keeps a queued claim waiting, or giving up. */
  lemma StaysQueued(s: State, a: Action, t: string, w: Waiter)
    requires DeliveryInv(s) && Enabled(s, a) && !a.Claim?
    requires t in s.reg.waiters && w in s.reg.waiters[t] && (a.Remove? ==> w.id != a.id)
    ensures Queued(Do(s, a), w.id)
  {
    assert Queued(s, w.id);
    var i :| 0 <= i < |s.reg.waiters[t]| && s.reg.waiters[t][i] == w;
    assert InQueue(s, t, s.reg.waiters[t][i]);
  }

  lemma QueueKept(s: State, a: Action)
    requires DeliveryInv(s) && Enabled(s, a)
    ensures QueueInv(Do(s, a))
  {
    if a.Claim? {
      ClaimQueueKept(s, a.token, a.fingerprint);
    } else {
      var s' := Do(s, a);
      forall t, w | t in s'.reg.waiters && w in s'.reg.waiters[t] ensures Queued(s', w.id) {
        QueueFrom(s, a, t, w);
        StaysQueued(s, a, t, w);
      }
    }
  }

  lemma StepsKeepDelivery(s: State, a: Action)
    requires DeliveryInv(s) && Enabled(s, a)
    ensures DeliveryInv(Do(s, a))
  {
    StepsKeepInv(s, a);
    QueueKept(s, a);
    match a
    case Register(token, stream) => RegisterFate(s, token, stream);
    case Claim(token, fingerprint) => ClaimFate(s, token, fingerprint);
    case Expire(token, entryId) => ExpireFate(s, token, entryId);
    case DoDuty(id) => DoDutyFate(s, id);
    case Receive(id) => ReceiveFate(s, id);
    case GiveUp(id) => LeaveFate(s, a);
    case Remove(id) => LeaveFate(s, a);
  }

  lemma {:induction false} RunsKeepDelivery(states: seq<State>, actions: seq<Action>, n: nat)
    requires Run(states, actions) && n < |states|
    ensures forall k :: 0 <= k <= n ==> DeliveryInv(states[k])
  {
    if n > 0 {
      RunsKeepDelivery(states, actions, n - 1);
      assert StepAt(states, actions, n - 1);
      StepsKeepDelivery(states[n - 1], actions[n - 1]);
    }
  }

  /**
   * In every run, a stream matched to a waiting claim is won exactly when the
   * claim is answered; until then it stays on its way while the claim waits;
   * and when the claim gave up, it is lost, the token being used up.
   */
  lemma MatchedIsWonIffAnswered(states: seq<State>, actions: seq<Action>)
    requires Run(states, actions)
    ensures forall n, token :: 0 <= n < |states| && token in states[n].granted && states[n].granted[token].ByWaiter? ==>
            var s := states[n];
            var id := s.granted[token].id;
            && id in s.claims && s.claims[id].token == token && token in s.reg.expired
            && (Won(s, token) <==> s.claims[id].phase == Received)
            && (s.claims[id].phase == Waiting ==> OnTheWay(s, id))
  {
    RunsKeepDelivery(states, actions, |states| - 1);
    forall n, token | 0 <= n < |states| && token in states[n].granted && states[n].granted[token].ByWaiter?
      ensures Fate(states[n], token, states[n].granted[token].id) && token in states[n].reg.expired
    {
      assert DeliveryInv(states[n]);
    }
  }

  /** A continuation of a run. */
  ghost predicate RunFrom(s: State, states: seq<State>, actions: seq<Action>) {
    && |states| == |actions| + 1 && states[0] == s
    && (forall i :: 0 <= i < |actions| ==> StepAt(states, actions, i))
  }

  ghost predicate CanWin(s: State, token: string) {
    exists states: seq<State>, actions: seq<Action> ::
      RunFrom(s, states, actions) && Won(states[|states| - 1], token)
  }

  predicate GaveUp(s: State, id: nat) {
    id in s.claims && (s.claims[id].phase == Removing || s.claims[id].phase == Removed)
  }

  lemma {:induction false} GivenUpForGood(s: State, states: seq<State>, actions: seq<Action>, token: string, id: nat, n: nat)
    requires DeliveryInv(s) && token in s.granted && s.granted[token] == ByWaiter(id) && GaveUp(s, id)
    requires RunFrom(s, states, actions) && n < |states|
    ensures forall k :: 0 <= k <= n ==>
              DeliveryInv(states[k]) && GaveUp(states[k], id)
              && token in states[k].granted && states[k].granted[token] == ByWaiter(id)
  {
    if n > 0 {
      GivenUpForGood(s, states, actions, token, id, n - 1);
      assert StepAt(states, actions, n - 1);
      StepsKeepDelivery(states[n - 1], actions[n - 1]);
      StaysGivenUp(states[n - 1], actions[n - 1], token, id);
    }
  }

  lemma StaysGivenUp(s: State, a: Action, token: string, id: nat)
    requires DeliveryInv(s) && Enabled(s, a) && GaveUp(s, id)
    requires token in s.granted && s.granted[token] == ByWaiter(id)
    ensures GaveUp(Do(s, a), id)
    ensures token in Do(s, a).granted && Do(s, a).granted[token] == ByWaiter(id)
  {
    assert token in s.reg.expired;
  }

  /** Delivering what is due to a waiting claim puts it in its channel. */
  lemma Delivered(s: State, token: string, id: nat)
    requires DeliveryInv(s) && token in s.granted && s.granted[token] == ByWaiter(id)
    requires s.claims[id].phase == Waiting && s.chans[id].sent.None?
    ensures Enabled(s, DoDuty(id))
    ensures Do(s, DoDuty(id)).chans[id].sent.Some? && Do(s, DoDuty(id)).claims[id].phase == Waiting
  {
    assert Fate(s, token, id);
  }

  lemma ReceivedWins(s: State, token: string, id: nat)
    requires DeliveryInv(s) && token in s.granted && s.granted[token] == ByWaiter(id)
    requires id in s.claims && s.claims[id].phase == Waiting && id in s.chans && s.chans[id].sent.Some?
    ensures Enabled(s, Receive(id)) && Won(Do(s, Receive(id)), token)
  {
    StepsKeepDelivery(s, Receive(id));
    assert Fate(Do(s, Receive(id)), token, id);
  }

  /**
   * A matched stream can still be won exactly when its claim has not given up,
   * at the moment of the match as at any later one.
   */
  lemma CanWinIff(s: State, token: string)
    requires DeliveryInv(s) && token in s.granted && s.granted[token].ByWaiter?
    ensures CanWin(s, token) <==> !GaveUp(s, s.granted[token].id)
  {
    var id := s.granted[token].id;
    assert Fate(s, token, id);
    if GaveUp(s, id) {
      forall states: seq<State>, actions: seq<Action> | RunFrom(s, states, actions)
        ensures !Won(states[|states| - 1], token)
      {
        GivenUpForGood(s, states, actions, token, id, |states| - 1);
        assert Fate(states[|states| - 1], token, id);
      }
    } else {
      var states, actions, t := [s], [], s;
      if s.claims[id].phase == Waiting {
        if s.chans[id].sent.None? {
          Delivered(s, token, id);
          StepsKeepDelivery(s, DoDuty(id));
          t := Do(s, DoDuty(id));
          states, actions := Extend(s, states, actions, DoDuty(id));
        }
        ReceivedWins(t, token, id);
        states, actions := Extend(s, states, actions, Receive(id));
      }
      assert RunFrom(s, states, actions) && Won(states[|states| - 1], token);
    }
  }

  lemma Extend(s: State, states: seq<State>, actions: seq<Action>, a: Action)
    returns (states': seq<State>, actions': seq<Action>)
    requires RunFrom(s, states, actions) && Enabled(states[|states| - 1], a)
    ensures RunFrom(s, states', actions')
    ensures states'[|states'| - 1] == Do(states[|states| - 1], a)
  {
    states', actions' := states + [Do(states[|states| - 1], a)], actions + [a];
    forall i | 0 <= i < |actions'| ensures StepAt(states', actions', i) {
      assert i < |actions| ==> StepAt(states, actions, i);
    }
  }

  /** The token is used up by a match with a claim that gave up. */
  predicate Lost(s: State, token: string) {
    token in s.granted && s.granted[token].ByWaiter? && GaveUp(s, s.granted[token].id) && token in s.reg.expired
  }

  /** It happens: a claim times out, and before it has left the queue its stream comes and is lost on it. */
  lemma MatchedAndLost()
    ensures exists states: seq<State>, actions: seq<Action> ::
              Run(states, actions) && Lost(states[|states| - 1], "t")
  {
    var states, actions := [INITIAL], [];
    states, actions := Extend(INITIAL, states, actions, Action.Claim("t", "p"));
    states, actions := Extend(INITIAL, states, actions, GiveUp(0));
    states, actions := Extend(INITIAL, states, actions, Action.Register("t", Stream(1, "p")));
    assert Run(states, actions) && Lost(states[|states| - 1], "t");
  }

  /** A token that died without being granted. */
  ghost predicate DiedUnclaimed(s: State, token: string) {
    token in s.reg.expired && token !in s.granted
  }

  lemma StaysUnclaimed(s: State, a: Action, token: string)
    requires Inv(s) && Enabled(s, a) && DiedUnclaimed(s, token)
    ensures DiedUnclaimed(Do(s, a), token)
  {}

  lemma UnclaimedNotWon(s: State, token: string)
    requires Inv(s) && DiedUnclaimed(s, token)
    ensures !Won(s, token)
  {}

  lemma UnclaimedNext(states: seq<State>, actions: seq<Action>, token: string, n: nat)
    requires Run(states, actions) && n < |actions| && DiedUnclaimed(states[n], token)
    ensures DiedUnclaimed(states[n + 1], token)
  {
    RunsKeepInv(states, actions, n);
    assert StepAt(states, actions, n);
    StaysUnclaimed(states[n], actions[n], token);
  }

  /** Such a token is never won, at that point or later. */
  lemma {:induction false} DeadTokenNeverWon(states: seq<State>, actions: seq<Action>, token: string, i: nat, n: nat)
    requires Run(states, actions) && i <= n < |states| && DiedUnclaimed(states[i], token)
    ensures DiedUnclaimed(states[n], token) && !Won(states[n], token)
    decreases n
  {
    if i < n {
      DeadTokenNeverWon(states, actions, token, i, n - 1);
      UnclaimedNext(states, actions, token, n - 1);
    }
    assert Inv(states[n]) by {
      RunsKeepInv(states, actions, n);
    }
    UnclaimedNotWon(states[n], token);
  }

  // ---- no waiting claim is forgotten ----

  /** The claim is in its token's queue, or its channel is about to be used, or is closed. */
  ghost predicate Attended(s: State, id: nat) {
    && id in s.claims
    && ((exists w :: w in WaitersOf(s.reg, s.claims[id].token) && w.id == id)
        || id in s.duties
        || (id in s.chans && s.chans[id].closed))
  }

  ghost predicate AttendedInv(s: State) {
    forall id :: id in s.claims && s.claims[id].phase == Waiting ==> Attended(s, id)
  }

  /** Retiring a token: its waiters leave the queue with a duty each. */
  lemma RetiredAttended(s: State, s': State, token: string, id: nat)
    requires Attended(s, id) && s'.claims == s.claims && s'.chans == s.chans
    requires s'.reg.waiters == s.reg.waiters - {token}
    requires forall k :: k in s.duties || k in IdsIn(WaitersOf(s.reg, token)) ==> k in s'.duties
    ensures Attended(s', id)
  {
    if w :| w in WaitersOf(s.reg, s.claims[id].token) && w.id == id {
      if s.claims[id].token == token {
        assert id in IdsIn(WaitersOf(s.reg, token));
      } else {
        assert w in WaitersOf(s'.reg, s'.claims[id].token);
      }
    }
  }

  /** The winner and the losers together are all waiters: each gets a duty. */
  lemma AllServed(duties: map<nat, Duty>, ws: seq<Waiter>, m: nat, d: Duty, k: nat)
    requires m < |ws| && (k in duties || k in IdsIn(ws))
    ensures k in Closes(duties, ws[..m] + ws[m + 1..])[ws[m].id := d]
  {
    var losers := ws[..m] + ws[m + 1..];
    ClosesMeaning(duties, losers, k);
    if k !in duties {
      var i :| 0 <= i < |ws| && ws[i].id == k;
      if i != m {
        assert losers[if i < m then i else i - 1] == ws[i];
      }
    }
  }

  lemma RegisterAttended(s: State, token: string, stream: Stream, id: nat)
    requires Inv(s) && Attended(s, id)
    ensures Attended(Do(s, Action.Register(token, stream)), id)
  {
    var s' := Do(s, Action.Register(token, stream));
    if RegisterStep(s.reg, token, Entry(s.nextId, stream)).1.Matched? {
      var ws := WaitersOf(s.reg, token);
      forall k | k in s.duties || k in IdsIn(ws) ensures k in s'.duties {
        AllServed(s.duties, ws, FirstMatch(ws, stream.expected), Deliver(stream), k);
      }
      RetiredAttended(s, s', token, id);
    } else {
      assert s'.reg.waiters == s.reg.waiters;
    }
  }

  lemma ClaimAttended(s: State, token: string, fingerprint: string, id: nat)
    requires Inv(s)
    requires id in Do(s, Action.Claim(token, fingerprint)).claims
    requires id in s.claims ==> Attended(s, id)
    ensures Attended(Do(s, Action.Claim(token, fingerprint)), id)
  {
    var s' := Do(s, Action.Claim(token, fingerprint));
    var o := ClaimStep(s.reg, token, fingerprint, s.nextId).1;
    if o.Granted? {
      forall k | k in s.duties || k in IdsIn(WaitersOf(s.reg, token)) ensures k in s'.duties {
        ClosesMeaning(s.duties, o.losers, k);
      }
      RetiredAttended(s, s', token, id);
    } else if o.Queued? {
      if id == s.nextId {
        assert Waiter(id, fingerprint) in WaitersOf(s'.reg, token);
      } else if w :| w in WaitersOf(s.reg, s.claims[id].token) && w.id == id {
        assert w in WaitersOf(s'.reg, s.claims[id].token);
      }
    }
  }

  lemma ExpireAttended(s: State, token: string, entryId: nat, id: nat)
    requires Inv(s) && Attended(s, id)
    ensures Attended(Do(s, Action.Expire(token, entryId)), id)
  {
    var s' := Do(s, Action.Expire(token, entryId));
    var losers := ExpireStep(s.reg, token, entryId).1;
    if token in s.reg.pending && s.reg.pending[token].id == entryId {
      forall k | k in s.duties || k in IdsIn(WaitersOf(s.reg, token)) ensures k in s'.duties {
        ClosesMeaning(s.duties, losers, k);
      }
      RetiredAttended(s, s', token, id);
    } else {
      assert Closes(s.duties, []) == s.duties;
    }
  }

  /** removeWaiter takes out the waiter of the claim that gave up and no other. */
  lemma RemoveAttended(s: State, k: nat, id: nat)
    requires Inv(s) && Enabled(s, Remove(k)) && Attended(s, id) && id != k
    ensures Attended(Do(s, Remove(k)), id)
  {
    var s' := Do(s, Remove(k));
    var token := s.claims[k].token;
    if w :| w in WaitersOf(s.reg, s.claims[id].token) && w.id == id {
      DropWaiterKeeps(WaitersOf(s.reg, token), k);
      if s.claims[id].token == token {
        assert w in DropWaiter(WaitersOf(s.reg, token), k);
      }
      assert w in WaitersOf(s'.reg, s.claims[id].token);
    }
  }

  lemma OtherAttended(s: State, a: Action, id: nat)
    requires Inv(s) && Enabled(s, a) && Attended(s, id) && (a.DoDuty? || a.Receive? || a.GiveUp?)
    ensures Attended(Do(s, a), id)
  {
    var s' := Do(s, a);
    assert s'.reg == s.reg && s'.claims[id].token == s.claims[id].token;
  }

  lemma StepsKeepAttended(s: State, a: Action)
    requires Inv(s) && AttendedInv(s) && Enabled(s, a)
    ensures AttendedInv(Do(s, a))
  {
    var s' := Do(s, a);
    forall id | id in s'.claims && s'.claims[id].phase == Waiting ensures Attended(s', id) {
      match a
      case Register(token, stream) => RegisterAttended(s, token, stream, id);
      case Claim(token, fingerprint) => ClaimAttended(s, token, fingerprint, id);
      case Expire(token, entryId) => ExpireAttended(s, token, entryId, id);
      case Remove(k) => RemoveAttended(s, k, id);
      case DoDuty(_) => OtherAttended(s, a, id);
      case Receive(_) => OtherAttended(s, a, id);
      case GiveUp(_) => OtherAttended(s, a, id);
    }
  }

  /**
   * In every run, a claim that waits is in its token's queue, or a thread still
   * has to use its channel, or the channel is closed and wakes it.
   */
  lemma {:induction false} NoClaimForgotten(states: seq<State>, actions: seq<Action>, n: nat)
    requires Run(states, actions) && n < |states|
    ensures AttendedInv(states[n])
  {
    if n > 0 {
      NoClaimForgotten(states, actions, n - 1);
      RunsKeepInv(states, actions, n - 1);
      assert StepAt(states, actions, n - 1);
      StepsKeepAttended(states[n - 1], actions[n - 1]);
    }
  }
}
