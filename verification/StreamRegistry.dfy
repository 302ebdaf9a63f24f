// The rendezvous of a pending stream and the peer that claims it by token.
//
// `Registry` holds the three maps guarded by the registry's lock, and the four
// locked sections are functions on it, also given in class form. The channel
// operations happen outside the lock, so the protocol around them is a state
// machine in which they interleave with everything else.
module StreamRegistry {
  import opened Options

  /** A stream waiting to be claimed by the peer it names. */
  datatype Stream = Stream(id: nat, expected: string)

  datatype Entry = Entry(id: nat, stream: Stream)

  datatype Waiter = Waiter(id: nat, fingerprint: string)

  datatype Registry = Registry(
    pending: map<string, Entry>,
    waiters: map<string, seq<Waiter>>,
    expired: set<string>)

  function WaitersOf(r: Registry, token: string): seq<Waiter> {
    if token in r.waiters then r.waiters[token] else []
  }

  /** The token is used up: no further stream, no further waiter. */
  function Retire(r: Registry, token: string): Registry {
    r.(waiters := r.waiters - {token}, expired := r.expired + {token})
  }

  /** Index of the first waiter with this fingerprint, or the length. */
  function FirstMatch(ws: seq<Waiter>, fingerprint: string): (i: nat)
    ensures i <= |ws|
    ensures i < |ws| ==> ws[i].fingerprint == fingerprint
    ensures forall k :: 0 <= k < i ==> ws[k].fingerprint != fingerprint
  {
    if ws == [] || ws[0].fingerprint == fingerprint then 0 else 1 + FirstMatch(ws[1..], fingerprint)
  }

  datatype RegisterOutcome = Refused | Matched(winner: Waiter, losers: seq<Waiter>) | Stored

  /** Register, its locked part. */
  function RegisterStep(r: Registry, token: string, entry: Entry): (Registry, RegisterOutcome) {
    if token == "" || token in r.expired then (r, Refused)
    else
      var ws := WaitersOf(r, token);
      var m := FirstMatch(ws, entry.stream.expected);
      if m < |ws| then (Retire(r, token), Matched(ws[m], ws[..m] + ws[m + 1..]))
      else (r.(pending := r.pending[token := entry]), Stored)
  }

  datatype ClaimOutcome = NotFound | WrongPeer | Granted(stream: Stream, losers: seq<Waiter>) | Queued

  /** Claim, its locked part; `id` is the new waiter's, if one is queued. */
  function ClaimStep(r: Registry, token: string, fingerprint: string, id: nat): (Registry, ClaimOutcome) {
    if token == "" || token in r.expired then (r, NotFound)
    else if token in r.pending then
      var stream := r.pending[token].stream;
      if stream.expected != fingerprint then (r, WrongPeer)
      else (Retire(r.(pending := r.pending - {token}), token), Granted(stream, WaitersOf(r, token)))
    else
      (r.(waiters := r.waiters[token := WaitersOf(r, token) + [Waiter(id, fingerprint)]]), Queued)
  }

  /** expire, its locked part: only the entry the timer was set for. */
  function ExpireStep(r: Registry, token: string, entryId: nat): (Registry, seq<Waiter>) {
    if token !in r.pending || r.pending[token].id != entryId then (r, [])
    else (Retire(r.(pending := r.pending - {token}), token), WaitersOf(r, token))
  }

  function DropWaiter(ws: seq<Waiter>, id: nat): seq<Waiter> {
    if ws == [] then []
    else if ws[0].id == id then DropWaiter(ws[1..], id)
    else [ws[0]] + DropWaiter(ws[1..], id)
  }

  /** removeWaiter */
  function RemoveStep(r: Registry, token: string, id: nat): Registry {
    var ws := WaitersOf(r, token);
    if ws == [] then r
    else if DropWaiter(ws, id) == [] then r.(waiters := r.waiters - {token})
    else r.(waiters := r.waiters[token := DropWaiter(ws, id)])
  }

  class LockedRegistry {
    var pending: map<string, Entry>
    var waiters: map<string, seq<Waiter>>
    var expired: set<string>

    function View(): Registry
      reads this
    {
      Registry(pending, waiters, expired)
    }

    constructor ()
      ensures View() == Registry(map[], map[], {})
    {
      pending, waiters, expired := map[], map[], {};
    }

    method Register(token: string, entry: Entry) returns (o: RegisterOutcome)
      modifies this
      ensures (View(), o) == RegisterStep(old(View()), token, entry)
    {
      if token == "" {
        return Refused;
      }
      if token in expired {
        return Refused;
      }
      var ws := if token in waiters then waiters[token] else [];
      if |ws| > 0 {
        var found := -1;
        for i := 0 to |ws|
          invariant found == -1
          invariant forall k :: 0 <= k < i ==> ws[k].fingerprint != entry.stream.expected
        {
          if ws[i].fingerprint == entry.stream.expected {
            found := i;
            break;
          }
        }
        if found >= 0 {
          waiters := waiters - {token};
          expired := expired + {token};
          return Matched(ws[found], ws[..found] + ws[found + 1..]);
        }
      }
      pending := pending[token := entry];
      o := Stored;
    }

    method Claim(token: string, fingerprint: string, id: nat) returns (o: ClaimOutcome)
      modifies this
      ensures (View(), o) == ClaimStep(old(View()), token, fingerprint, id)
    {
      if token == "" {
        return NotFound;
      }
      if token in expired {
        return NotFound;
      }
      if token in pending {
        var stream := pending[token].stream;
        if stream.expected != fingerprint {
          return WrongPeer;
        }
        pending := pending - {token};
        expired := expired + {token};
        var losers := if token in waiters then waiters[token] else [];
        waiters := waiters - {token};
        return Granted(stream, losers);
      }
      var ws := if token in waiters then waiters[token] else [];
      waiters := waiters[token := ws + [Waiter(id, fingerprint)]];
      o := Queued;
    }

    method Expire(token: string, entryId: nat) returns (losers: seq<Waiter>)
      modifies this
      ensures (View(), losers) == ExpireStep(old(View()), token, entryId)
    {
      if token !in pending || pending[token].id != entryId {
        return [];
      }
      pending := pending - {token};
      expired := expired + {token};
      losers := if token in waiters then waiters[token] else [];
      waiters := waiters - {token};
    }

    method RemoveWaiter(token: string, id: nat)
      modifies this
      ensures View() == RemoveStep(old(View()), token, id)
    {
      var ws := if token in waiters then waiters[token] else [];
      if |ws| == 0 {
        return;
      }
      var kept: seq<Waiter> := [];
      for i := 0 to |ws|
        invariant DropWaiter(ws, id) == kept + DropWaiter(ws[i..], id)
      {
        assert ws[i..][0] == ws[i] && ws[i..][1..] == ws[i + 1..];
        if ws[i].id != id {
          kept := kept + [ws[i]];
        }
      }
      assert kept + [] == kept;
      if |kept| == 0 {
        waiters := waiters - {token};
        return;
      }
      waiters := waiters[token := kept];
    }
  }

  // ---- the protocol around the locked sections ----

  /** A waiter's channel: a buffer of one, and whether it is closed. */
  datatype Chan = Chan(sent: Option<Stream>, closed: bool)

  /** What a thread that left the lock still has to do to a waiter's channel. */
  datatype Duty = Deliver(stream: Stream) | CloseOnly

  /** A claim waits until it is answered from its channel, or gives up and then takes its waiter out of the queue. */
  datatype Phase = Waiting | Received | Removing | Removed

  /** A call of Claim that queued a waiter. */
  datatype Claimant = Claimant(token: string, fingerprint: string, phase: Phase)

  datatype Win = Win(token: string, peer: string, stream: Stream)

  /** Who a used-up token went to: a claim answered on the spot, or a waiter. */
  datatype Holder = Direct | ByWaiter(id: nat)

  /** `faults` counts channel operations that would panic: a second close, a send after close. */
  datatype State = State(
    reg: Registry, nextId: nat,
    chans: map<nat, Chan>, claims: map<nat, Claimant>, duties: map<nat, Duty>,
    granted: map<string, Holder>, wins: seq<Win>, faults: nat)

  const INITIAL := State(Registry(map[], map[], {}), 0, map[], map[], map[], map[], [], 0)

  datatype Action =
    | Register(token: string, stream: Stream)
    | Claim(token: string, fingerprint: string)
    | Expire(token: string, entryId: nat)
    | DoDuty(id: nat)
    | Receive(id: nat)
    | GiveUp(id: nat)
    | Remove(id: nat)

  predicate Enabled(s: State, a: Action) {
    match a
    case Register(_, _) => true
    case Claim(_, _) => true
    case Expire(_, _) => true
    case DoDuty(id) => id in s.duties && id in s.chans
    case Receive(id) => id in s.claims && id in s.chans && s.claims[id].phase == Waiting
                        && (s.chans[id].sent.Some? || s.chans[id].closed)
    case GiveUp(id) => id in s.claims && s.claims[id].phase == Waiting
    case Remove(id) => id in s.claims && s.claims[id].phase == Removing
  }

  function IdsIn(ws: seq<Waiter>): set<nat> { set w | w in ws :: w.id }

  function Closes(duties: map<nat, Duty>, ws: seq<Waiter>): map<nat, Duty> {
    duties + map id | id in IdsIn(ws) :: CloseOnly
  }

  function Do(s: State, a: Action): State
    requires Enabled(s, a)
  {
    match a
    case Register(token, stream) =>
      var (reg, o) := RegisterStep(s.reg, token, Entry(s.nextId, stream));
      if !o.Matched? then s.(reg := reg, nextId := s.nextId + 1)
      else s.(reg := reg, nextId := s.nextId + 1,
              duties := Closes(s.duties, o.losers)[o.winner.id := Deliver(stream)],
              granted := s.granted[token := ByWaiter(o.winner.id)])
    case Claim(token, fingerprint) =>
      var id := s.nextId;
      var (reg, o) := ClaimStep(s.reg, token, fingerprint, id);
      (match o
       case NotFound => s
       case WrongPeer => s
       case Granted(stream, losers) =>
         s.(reg := reg, duties := Closes(s.duties, losers), granted := s.granted[token := Direct],
            wins := s.wins + [Win(token, fingerprint, stream)])
       case Queued =>
         s.(reg := reg, nextId := id + 1, chans := s.chans[id := Chan(None, false)],
            claims := s.claims[id := Claimant(token, fingerprint, Waiting)]))
    case Expire(token, entryId) =>
      var (reg, losers) := ExpireStep(s.reg, token, entryId);
      s.(reg := reg, duties := Closes(s.duties, losers))
    case DoDuty(id) =>
      var c := s.chans[id];
      if s.duties[id].Deliver? then
        if c.closed then s.(faults := s.faults + 1, duties := s.duties[id := CloseOnly])
        else if c.sent.Some? then s.(duties := s.duties[id := CloseOnly])
        else s.(chans := s.chans[id := Chan(Some(s.duties[id].stream), false)], duties := s.duties[id := CloseOnly])
      else
        s.(chans := s.chans[id := c.(closed := true)], duties := s.duties - {id},
           faults := if c.closed then s.faults + 1 else s.faults)
    case Receive(id) =>
      var c, claim := s.chans[id], s.claims[id];
      var done := s.(claims := s.claims[id := claim.(phase := Received)]);
      if c.sent.None? then done
      else
        var got := done.(chans := s.chans[id := c.(sent := None)]);
        if c.sent.value.expected != claim.fingerprint then got
        else got.(wins := s.wins + [Win(claim.token, claim.fingerprint, c.sent.value)])
    case GiveUp(id) => s.(claims := s.claims[id := s.claims[id].(phase := Removing)])
    case Remove(id) =>
      s.(reg := RemoveStep(s.reg, s.claims[id].token, id), claims := s.claims[id := s.claims[id].(phase := Removed)])
  }

  // ---- the invariant ----

  /** A queued waiter: its claim is for this token, its channel untouched, nobody owes it anything. */
  ghost predicate InQueue(s: State, token: string, w: Waiter) {
    && w.id in s.claims && s.claims[w.id].token == token && s.claims[w.id].fingerprint == w.fingerprint
    && w.id in s.chans && s.chans[w.id] == Chan(None, false)
    && w.id !in s.duties
  }

  ghost predicate ListsInv(s: State) {
    && (forall t, i :: t in s.reg.waiters && 0 <= i < |s.reg.waiters[t]| ==> InQueue(s, t, s.reg.waiters[t][i]))
    && (forall t, i, j :: t in s.reg.waiters && 0 <= i < j < |s.reg.waiters[t]| ==>
          s.reg.waiters[t][i].id != s.reg.waiters[t][j].id)
  }

  /** The token of claim `id` went to its waiter, and the stream is meant for its peer. */
  ghost predicate Due(s: State, id: nat, stream: Stream) {
    && id in s.claims && s.claims[id].token in s.granted && s.granted[s.claims[id].token] == ByWaiter(id)
    && stream.expected == s.claims[id].fingerprint
  }

  ghost predicate ChannelsInv(s: State) {
    && s.faults == 0
    && (forall id :: id in s.claims ==> id < s.nextId)
    && (forall id :: id in s.chans ==> id in s.claims && (s.chans[id].sent.Some? ==> Due(s, id, s.chans[id].sent.value)))
    && (forall id :: id in s.duties ==> id in s.chans && !s.chans[id].closed)
    && (forall id :: id in s.duties && s.duties[id].Deliver? ==>
          id in s.chans && s.chans[id].sent.None? && Due(s, id, s.duties[id].stream))
  }

  ghost predicate TokensInv(s: State) {
    && s.granted.Keys <= s.reg.expired
    && (forall t :: t in s.reg.waiters ==> t !in s.reg.expired)
    && (forall t, i :: t in s.reg.pending && t in s.reg.waiters && 0 <= i < |s.reg.waiters[t]| ==>
          s.reg.waiters[t][i].fingerprint != s.reg.pending[t].stream.expected)
  }

  /** A stream is on its way to waiter `id`. */
  predicate OnTheWay(s: State, id: nat) {
    (id in s.duties && s.duties[id].Deliver?) || (id in s.chans && s.chans[id].sent.Some?)
  }

  ghost predicate WinsInv(s: State) {
    && (forall i :: 0 <= i < |s.wins| ==> s.wins[i].token in s.granted && s.wins[i].peer == s.wins[i].stream.expected)
    && (forall i, j :: 0 <= i < j < |s.wins| ==> s.wins[i].token != s.wins[j].token)
    && (forall id, i :: OnTheWay(s, id) && id in s.claims && 0 <= i < |s.wins| ==> s.wins[i].token != s.claims[id].token)
  }

  ghost predicate Inv(s: State) {
    ListsInv(s) && ChannelsInv(s) && TokensInv(s) && WinsInv(s)
  }

  /** Closing the channels of the waiters of one retired token. */
  lemma ClosesMeaning(duties: map<nat, Duty>, ws: seq<Waiter>, id: nat)
    ensures id in Closes(duties, ws) <==> id in duties || id in IdsIn(ws)
    ensures id in Closes(duties, ws) ==> Closes(duties, ws)[id] == if id in IdsIn(ws) then CloseOnly else duties[id]
  {}

  lemma WaiterOf(s: State, token: string, id: nat)
    requires ListsInv(s) && id in IdsIn(WaitersOf(s.reg, token))
    ensures id in s.claims && s.claims[id].token == token && id in s.chans && s.chans[id] == Chan(None, false)
    ensures id !in s.duties
  {
    var w :| w in WaitersOf(s.reg, token) && w.id == id;
    assert InQueue(s, token, w);
  }

  /**
   * Retiring a token: its waiters leave the queue, and those in `losers` are
   * to be closed. The lists of the other tokens are untouched.
   */
  lemma RetireLists(s: State, s': State, token: string, losers: seq<Waiter>)
    requires ListsInv(s)
    requires forall w :: w in losers ==> w in WaitersOf(s.reg, token)
    requires s'.reg.waiters == s.reg.waiters - {token}
    requires s'.claims == s.claims && s'.chans == s.chans
    requires forall id :: id in s'.duties ==> id in s.duties || id in IdsIn(WaitersOf(s.reg, token))
    ensures ListsInv(s')
  {
    forall t, i | t in s'.reg.waiters && 0 <= i < |s'.reg.waiters[t]|
      ensures InQueue(s', t, s'.reg.waiters[t][i])
    {
      var w := s.reg.waiters[t][i];
      assert InQueue(s, t, w);
      if w.id in IdsIn(WaitersOf(s.reg, token)) {
        WaiterOf(s, token, w.id);
      }
    }
  }

  lemma ListsKept(s: State, s': State)
    requires ListsInv(s) && s'.reg.waiters == s.reg.waiters
    requires forall t, w :: t in s.reg.waiters && w in s.reg.waiters[t] && InQueue(s, t, w) ==> InQueue(s', t, w)
    ensures ListsInv(s')
  {
    forall t, i | t in s'.reg.waiters && 0 <= i < |s'.reg.waiters[t]|
      ensures InQueue(s', t, s'.reg.waiters[t][i])
    {
      assert InQueue(s, t, s.reg.waiters[t][i]);
    }
  }

  /** Steps that add no win and put nothing new on its way. */
  lemma WinsKept(s: State, s': State)
    requires WinsInv(s) && s'.wins == s.wins && s.granted.Keys <= s'.granted.Keys
    requires forall id :: OnTheWay(s', id) && id in s'.claims ==>
               OnTheWay(s, id) && id in s.claims && s'.claims[id].token == s.claims[id].token
    ensures WinsInv(s')
  {}

  lemma UnmatchedKeepsInv(s: State, token: string, stream: Stream)
    requires Inv(s) && !RegisterStep(s.reg, token, Entry(s.nextId, stream)).1.Matched?
    ensures Inv(Do(s, Action.Register(token, stream)))
  {
    var s' := Do(s, Action.Register(token, stream));
    ListsKept(s, s');
    DueKept(s, s');
    assert forall id :: OnTheWay(s', id) ==> OnTheWay(s, id);
  }

  lemma RegisterKeepsInv(s: State, token: string, stream: Stream)
    requires Inv(s)
    ensures Inv(Do(s, Action.Register(token, stream)))
  {
    var s' := Do(s, Action.Register(token, stream));
    var (reg, o) := RegisterStep(s.reg, token, Entry(s.nextId, stream));
    var ws := WaitersOf(s.reg, token);
    if !o.Matched? {
      UnmatchedKeepsInv(s, token, stream);
    } else {
      var win := o.winner;
      forall id ensures id in s'.duties ==> id in s.duties || id in IdsIn(ws) {
        ClosesMeaning(s.duties, o.losers, id);
      }
      assert InQueue(s, token, ws[FirstMatch(ws, stream.expected)]);
      RetireLists(s, s', token, o.losers);
      MatchedChannels(s, s', token, stream, win, o.losers);
      MatchedWins(s, s', token, stream, win, o.losers);
    }
  }

  /** What is due stays due while claims stay and grants only grow. */
  lemma DueKept(s: State, s': State)
    requires s'.claims == s.claims
    requires forall t :: t in s.granted ==> t in s'.granted && s'.granted[t] == s.granted[t]
    ensures forall id, x :: Due(s, id, x) ==> Due(s', id, x)
  {}

  lemma MatchedChannels(s: State, s': State, token: string, stream: Stream, win: Waiter, losers: seq<Waiter>)
    requires Inv(s) && token !in s.reg.expired
    requires InQueue(s, token, win) && win.fingerprint == stream.expected
    requires forall w :: w in losers ==> w in WaitersOf(s.reg, token)
    requires s' == s.(reg := s'.reg, nextId := s.nextId + 1,
                      duties := Closes(s.duties, losers)[win.id := Deliver(stream)],
                      granted := s.granted[token := ByWaiter(win.id)])
    ensures ChannelsInv(s')
  {
    DueKept(s, s');
    forall id | id in s'.duties
      ensures id in s'.chans && !s'.chans[id].closed
      ensures s'.duties[id].Deliver? ==> s'.chans[id].sent.None? && Due(s', id, s'.duties[id].stream)
    {
      ClosesMeaning(s.duties, losers, id);
      if id in IdsIn(losers) {
        WaiterOf(s, token, id);
      }
    }
  }

  lemma MatchedWins(s: State, s': State, token: string, stream: Stream, win: Waiter, losers: seq<Waiter>)
    requires Inv(s) && token !in s.reg.expired
    requires InQueue(s, token, win)
    requires forall w :: w in losers ==> w in WaitersOf(s.reg, token)
    requires s' == s.(reg := s'.reg, nextId := s.nextId + 1,
                      duties := Closes(s.duties, losers)[win.id := Deliver(stream)],
                      granted := s.granted[token := ByWaiter(win.id)])
    ensures WinsInv(s')
  {
    forall id, i | OnTheWay(s', id) && id in s'.claims && 0 <= i < |s'.wins|
      ensures s'.wins[i].token != s'.claims[id].token
    {
      ClosesMeaning(s.duties, losers, id);
      if id != win.id {
        assert OnTheWay(s, id);
      }
    }
  }

  /** Closing the losers of a retired token disturbs no delivery. */
  lemma LosersClosed(s: State, s': State, token: string, losers: seq<Waiter>)
    requires Inv(s) && losers == WaitersOf(s.reg, token)
    requires s'.reg.waiters == s.reg.waiters - {token} && s'.duties == Closes(s.duties, losers)
    requires s'.claims == s.claims && s'.chans == s.chans && s'.nextId == s.nextId && s'.faults == s.faults
    requires forall t :: t in s.granted ==> t in s'.granted && s'.granted[t] == s.granted[t]
    ensures ListsInv(s') && ChannelsInv(s')
    ensures forall id :: OnTheWay(s', id) ==> OnTheWay(s, id)
  {
    forall id
      ensures id in s'.duties ==> id in s.duties || id in IdsIn(losers)
      ensures id in s'.duties ==> id in s'.chans && !s'.chans[id].closed
      ensures id in s'.duties && s'.duties[id].Deliver? ==> id in s.duties && s'.duties[id] == s.duties[id]
    {
      ClosesMeaning(s.duties, losers, id);
      if id in IdsIn(losers) {
        WaiterOf(s, token, id);
      }
    }
    RetireLists(s, s', token, losers);
    DueKept(s, s');
  }

  lemma ClaimKeepsInv(s: State, token: string, fingerprint: string)
    requires Inv(s)
    ensures Inv(Do(s, Action.Claim(token, fingerprint)))
  {
    var s' := Do(s, Action.Claim(token, fingerprint));
    var (reg, o) := ClaimStep(s.reg, token, fingerprint, s.nextId);
    if o.Granted? {
      LosersClosed(s, s', token, o.losers);
      GrantedWins(s, s', Win(token, fingerprint, o.stream));
    } else if o.Queued? {
      QueuedKeepsInv(s, token, fingerprint);
    }
  }

  /** A win on the spot, under a token nobody had. */
  lemma GrantedWins(s: State, s': State, win: Win)
    requires Inv(s) && win.token !in s.reg.expired && win.peer == win.stream.expected
    requires s'.wins == s.wins + [win] && s'.claims == s.claims
    requires s'.granted == s.granted[win.token := Direct]
    requires forall id :: OnTheWay(s', id) ==> OnTheWay(s, id)
    ensures WinsInv(s')
  {
    forall id | OnTheWay(s', id) && id in s'.claims ensures s'.claims[id].token != win.token {
      assert exists stream :: Due(s, id, stream);
    }
  }

  lemma QueuedLists(s: State, token: string, fingerprint: string)
    requires Inv(s) && ClaimStep(s.reg, token, fingerprint, s.nextId).1 == Queued
    ensures ListsInv(Do(s, Action.Claim(token, fingerprint)))
  {
    var s' := Do(s, Action.Claim(token, fingerprint));
    var id, ws := s.nextId, WaitersOf(s.reg, token);
    assert id !in s.claims && id !in s.chans && id !in s.duties;
    forall t, i | t in s'.reg.waiters && 0 <= i < |s'.reg.waiters[t]|
      ensures InQueue(s', t, s'.reg.waiters[t][i])
      ensures t == token && i < |ws| ==> s'.reg.waiters[t][i].id != id
    {
      if t != token || i < |ws| {
        assert s'.reg.waiters[t][i] == s.reg.waiters[t][i];
        assert InQueue(s, t, s.reg.waiters[t][i]);
      }
    }
  }

  lemma QueuedKeepsInv(s: State, token: string, fingerprint: string)
    requires Inv(s) && ClaimStep(s.reg, token, fingerprint, s.nextId).1 == Queued
    ensures Inv(Do(s, Action.Claim(token, fingerprint)))
  {
    var s' := Do(s, Action.Claim(token, fingerprint));
    QueuedLists(s, token, fingerprint);
    QueuedChannels(s, token, fingerprint);
    forall k | OnTheWay(s', k) ensures OnTheWay(s, k) && k != s.nextId {}
    WinsKept(s, s');
  }

  lemma QueuedChannels(s: State, token: string, fingerprint: string)
    requires Inv(s) && ClaimStep(s.reg, token, fingerprint, s.nextId).1 == Queued
    ensures ChannelsInv(Do(s, Action.Claim(token, fingerprint)))
  {
    var s' := Do(s, Action.Claim(token, fingerprint));
    forall k, x | Due(s, k, x) ensures Due(s', k, x) {}
  }

  lemma ExpireKeepsInv(s: State, token: string, entryId: nat)
    requires Inv(s)
    ensures Inv(Do(s, Action.Expire(token, entryId)))
  {
    var s' := Do(s, Action.Expire(token, entryId));
    if token in s.reg.pending && s.reg.pending[token].id == entryId {
      LosersClosed(s, s', token, WaitersOf(s.reg, token));
    } else {
      assert Closes(s.duties, []) == s.duties;
      assert s' == s;
    }
  }

  lemma DoDutyKeepsInv(s: State, id: nat)
    requires Inv(s) && Enabled(s, DoDuty(id))
    ensures Inv(Do(s, DoDuty(id)))
  {
    var s' := Do(s, DoDuty(id));
    ListsKept(s, s');
    DoDutyChannels(s, id);
    assert forall k :: OnTheWay(s', k) ==> OnTheWay(s, k);
    WinsKept(s, s');
  }

  lemma DoDutyChannels(s: State, id: nat)
    requires Inv(s) && Enabled(s, DoDuty(id))
    ensures ChannelsInv(Do(s, DoDuty(id)))
  {
    DueKept(s, Do(s, DoDuty(id)));
  }

  lemma ReceiveWins(s: State, id: nat)
    requires WinsInv(s) && ChannelsInv(s) && Enabled(s, Receive(id))
    ensures WinsInv(Do(s, Receive(id)))
  {
    var s' := Do(s, Receive(id));
    forall k | OnTheWay(s', k) ensures OnTheWay(s, k) && (k == id ==> s.chans[id].sent.None?) {}
    if s.chans[id].sent.Some? {
      assert Due(s, id, s.chans[id].sent.value) && OnTheWay(s, id);
      forall k | OnTheWay(s', k) && k in s'.claims ensures s'.claims[k].token != s.claims[id].token {
        assert k != id;
        assert s.granted[s.claims[id].token] == ByWaiter(id);
      }
    }
  }

  lemma ReceiveKeepsInv(s: State, id: nat)
    requires Inv(s) && Enabled(s, Receive(id))
    ensures Inv(Do(s, Receive(id)))
  {
    var s' := Do(s, Receive(id));
    ReceiveWins(s, id);
    ListsKept(s, s');
    forall k, x ensures Due(s', k, x) <==> Due(s, k, x) {}
  }

  /** Removing a waiter leaves sub-lists of the lists there were. */
  lemma RemoveSubLists(s: State, id: nat)
    requires Inv(s) && Enabled(s, Remove(id))
    ensures var s' := Do(s, Remove(id));
            forall u, w :: u in s'.reg.waiters && w in s'.reg.waiters[u] ==>
              u in s.reg.waiters && w in s.reg.waiters[u] && (u == s.claims[id].token ==> w.id != id)
  {
    DropWaiterKeeps(WaitersOf(s.reg, s.claims[id].token), id);
  }

  lemma RemoveDistinct(s: State, id: nat, u: string, i: nat, j: nat)
    requires Inv(s) && Enabled(s, Remove(id))
    requires var w := Do(s, Remove(id)).reg.waiters; u in w && i < j < |w[u]|
    ensures Do(s, Remove(id)).reg.waiters[u][i].id != Do(s, Remove(id)).reg.waiters[u][j].id
  {
    DropWaiterKeeps(WaitersOf(s.reg, s.claims[id].token), id);
  }

  lemma RemoveLists(s: State, id: nat)
    requires Inv(s) && Enabled(s, Remove(id))
    ensures ListsInv(Do(s, Remove(id)))
  {
    var s' := Do(s, Remove(id));
    RemoveSubLists(s, id);
    forall u, i, j | u in s'.reg.waiters && 0 <= i < j < |s'.reg.waiters[u]|
      ensures s'.reg.waiters[u][i].id != s'.reg.waiters[u][j].id
    {
      RemoveDistinct(s, id, u, i, j);
    }
    forall u, i | u in s'.reg.waiters && 0 <= i < |s'.reg.waiters[u]|
      ensures InQueue(s', u, s'.reg.waiters[u][i])
    {
      assert s'.reg.waiters[u][i] in s'.reg.waiters[u];
      var k :| 0 <= k < |s.reg.waiters[u]| && s.reg.waiters[u][k] == s'.reg.waiters[u][i];
      assert InQueue(s, u, s.reg.waiters[u][k]);
    }
  }

  lemma RemoveKeepsInv(s: State, id: nat)
    requires Inv(s) && Enabled(s, Remove(id))
    ensures Inv(Do(s, Remove(id)))
  {
    var s' := Do(s, Remove(id));
    RemoveLists(s, id);
    RemoveTokens(s, id);
    forall k, x ensures Due(s', k, x) <==> Due(s, k, x) {}
    assert forall k :: OnTheWay(s', k) ==> OnTheWay(s, k);
    WinsKept(s, s');
  }

  lemma RemoveTokens(s: State, id: nat)
    requires Inv(s) && Enabled(s, Remove(id))
    ensures TokensInv(Do(s, Remove(id)))
  {
    var s' := Do(s, Remove(id));
    RemoveSubLists(s, id);
    forall u, i | u in s'.reg.pending && u in s'.reg.waiters && 0 <= i < |s'.reg.waiters[u]|
      ensures s'.reg.waiters[u][i].fingerprint != s'.reg.pending[u].stream.expected
    {
      assert s'.reg.waiters[u][i] in s'.reg.waiters[u];
    }
  }

  /** removeWaiter's filter keeps the other waiters, in order, and drops every waiter with this id. */
  lemma {:induction false} DropWaiterKeeps(ws: seq<Waiter>, id: nat)
    ensures forall w :: w in DropWaiter(ws, id) <==> w in ws && w.id != id
    ensures (forall i, j :: 0 <= i < j < |ws| ==> ws[i].id != ws[j].id) ==>
              (forall i, j :: 0 <= i < j < |DropWaiter(ws, id)| ==> DropWaiter(ws, id)[i].id != DropWaiter(ws, id)[j].id)
  {
    if ws != [] {
      DropWaiterKeeps(ws[1..], id);
      var rest := DropWaiter(ws[1..], id);
      if ws[0].id != id && (forall i, j :: 0 <= i < j < |ws| ==> ws[i].id != ws[j].id) {
        forall j | 0 <= j < |rest| ensures ws[0].id != rest[j].id {
          assert rest[j] in ws[1..];
        }
      }
    }
  }

  lemma GiveUpKeepsInv(s: State, id: nat)
    requires Inv(s) && Enabled(s, GiveUp(id))
    ensures Inv(Do(s, GiveUp(id)))
  {
    var s' := Do(s, GiveUp(id));
    ListsKept(s, s');
    forall k, x ensures Due(s', k, x) <==> Due(s, k, x) {}
    assert forall k :: OnTheWay(s', k) ==> OnTheWay(s, k);
  }

  lemma StepsKeepInv(s: State, a: Action)
    requires Inv(s) && Enabled(s, a)
    ensures Inv(Do(s, a))
  {
    match a
    case Register(token, stream) => RegisterKeepsInv(s, token, stream);
    case Claim(token, fingerprint) => ClaimKeepsInv(s, token, fingerprint);
    case Expire(token, entryId) => ExpireKeepsInv(s, token, entryId);
    case DoDuty(id) => DoDutyKeepsInv(s, id);
    case Receive(id) => ReceiveKeepsInv(s, id);
    case GiveUp(id) => GiveUpKeepsInv(s, id);
    case Remove(id) => RemoveKeepsInv(s, id);
  }

  ghost predicate StepAt(states: seq<State>, actions: seq<Action>, i: nat) {
    i < |actions| && |states| == |actions| + 1
    && Enabled(states[i], actions[i]) && states[i + 1] == Do(states[i], actions[i])
  }

  ghost predicate Run(states: seq<State>, actions: seq<Action>) {
    && |states| == |actions| + 1 && states[0] == INITIAL
    && (forall i :: 0 <= i < |actions| ==> StepAt(states, actions, i))
  }

  lemma {:induction false} RunsKeepInv(states: seq<State>, actions: seq<Action>, n: nat)
    requires Run(states, actions) && n < |states|
    ensures forall k :: 0 <= k <= n ==> Inv(states[k])
  {
    if n > 0 {
      RunsKeepInv(states, actions, n - 1);
      assert StepAt(states, actions, n - 1);
      StepsKeepInv(states[n - 1], actions[n - 1]);
    }
  }

  /**
   * In every interleaving of registrations, claims, timeouts and channel
   * operations: each token is won at most once, and by the peer its stream
   * names; a used-up token has no waiters; a pending stream never coexists with
   * a waiter it is meant for; no channel is closed twice or sent to after close.
   */
  lemma RendezvousSafe(states: seq<State>, actions: seq<Action>)
    requires Run(states, actions)
    ensures forall n :: 0 <= n < |states| ==>
            var s := states[n];
            && (forall i, j :: 0 <= i < j < |s.wins| ==> s.wins[i].token != s.wins[j].token)
            && (forall i :: 0 <= i < |s.wins| ==> s.wins[i].peer == s.wins[i].stream.expected)
            && (forall t :: t in s.reg.expired ==> WaitersOf(s.reg, t) == [])
            && (forall t, w :: t in s.reg.pending && w in WaitersOf(s.reg, t) ==>
                  w.fingerprint != s.reg.pending[t].stream.expected)
            && s.faults == 0
  {
    RunsKeepInv(states, actions, |states| - 1);
  }

  /**
   * Nobody is missed: a stream registered under a fresh token is either handed
   * to a waiter of its peer already there, or stored for a later claim.
   */
  lemma RegisterMeetsWaiter(r: Registry, token: string, entry: Entry)
    requires token != "" && token !in r.expired
    ensures var (r', o) := RegisterStep(r, token, entry);
            if exists w :: w in WaitersOf(r, token) && w.fingerprint == entry.stream.expected
            then o.Matched? && o.winner in WaitersOf(r, token) && o.winner.fingerprint == entry.stream.expected
                 && multiset([o.winner] + o.losers) == multiset(WaitersOf(r, token))
            else o == Stored && token in r'.pending && r'.pending[token] == entry
  {
    var ws := WaitersOf(r, token);
    var m := FirstMatch(ws, entry.stream.expected);
    if m < |ws| {
      assert ws == ws[..m] + [ws[m]] + ws[m + 1..];
    } else {
      forall w | w in ws ensures w.fingerprint != entry.stream.expected {
        var k :| 0 <= k < |ws| && ws[k] == w;
      }
    }
  }

  /** The registry once a token is used up: no stream, no waiter, not again. */
  function WithoutToken(r: Registry, token: string): Registry {
    Registry(r.pending - {token}, r.waiters - {token}, r.expired + {token})
  }

  /**
   * And the other way round: a claim gets the stream stored under its token if
   * the stream names the claiming peer, the token being used up then and every
   * other one as before; any other peer is refused and changes nothing.
   */
  lemma ClaimGetsStream(s: State, token: string, fingerprint: string)
    requires token != "" && token in s.reg.pending && token !in s.reg.expired
    ensures var stream, s' := s.reg.pending[token].stream, Do(s, Action.Claim(token, fingerprint));
            if stream.expected == fingerprint
            then s'.wins == s.wins + [Win(token, fingerprint, stream)] && s'.reg == WithoutToken(s.reg, token)
            else s' == s
    ensures var stream, r := s.reg.pending[token].stream, ClaimStep(s.reg, token, fingerprint, s.nextId);
            if stream.expected == fingerprint
            then r == (WithoutToken(s.reg, token), Granted(stream, WaitersOf(s.reg, token)))
            else r == (s.reg, WrongPeer)
  {}

  /** A claim under a dead token is turned away; one that finds no stream waits, behind those already waiting. */
  lemma ClaimElse(r: Registry, token: string, fingerprint: string, id: nat)
    requires token !in r.pending || token in r.expired
    ensures var (r', o) := ClaimStep(r, token, fingerprint, id);
            if token == "" || token in r.expired then r' == r && o == NotFound
            else o == Queued && WaitersOf(r', token) == WaitersOf(r, token) + [Waiter(id, fingerprint)]
                 && r' == r.(waiters := r.waiters[token := WaitersOf(r', token)])
  {}

  /** A dead token takes no stream. */
  lemma DeadTokenTakesNone(s: State, token: string, stream: Stream)
    requires token == "" || token in s.reg.expired
    ensures Do(s, Action.Register(token, stream)) == s.(nextId := s.nextId + 1)
  {}

  /** A stored stream stays until its peer claims it, its own timer runs out or another is stored over it. */
  lemma StoredStays(s: State, a: Action, token: string)
    requires Enabled(s, a) && token != "" && token in s.reg.pending && token !in s.reg.expired
    ensures var entry, r := s.reg.pending[token], Do(s, a).reg;
            (token in r.pending && r.pending[token] == entry)
            || a == Action.Claim(token, entry.stream.expected) || a == Action.Expire(token, entry.id)
            || (a.Register? && a.token == token)
  {
    match a
    case Register(_, _) => case Claim(_, _) => case Expire(_, _) => case DoDuty(_) => case Receive(_) =>
    case GiveUp(_) => case Remove(_) =>
  }

  /** A timer takes out the entry it was set for, with the token's waiters, and nothing else. */
  lemma ExpireTakesOut(s: State, token: string, entryId: nat)
    ensures var s' := Do(s, Action.Expire(token, entryId));
            if token in s.reg.pending && s.reg.pending[token].id == entryId
            then s' == s.(reg := WithoutToken(s.reg, token), duties := Closes(s.duties, WaitersOf(s.reg, token)))
            else s' == s
  {
    assert Closes(s.duties, []) == s.duties;
  }

  /** A waiting claim may give up at any time, and once it has it can leave the queue. */
  lemma ClaimsAreFree(s: State, id: nat)
    requires id in s.claims
    ensures s.claims[id].phase == Waiting ==> Enabled(s, GiveUp(id)) && Enabled(Do(s, GiveUp(id)), Remove(id))
  {}
}
