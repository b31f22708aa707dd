/** The peer set of eth/peerset.go: the rendezvous of `eth` and `snap` connections. */
module PeerSet {
  import opened Options

  type Id = string

  /** A snap connection; `conn` tells connections of one remote peer apart, `eth` says that
      the remote also advertises eth. */
  datatype Snap = Snap(conn: nat, id: Id, eth: bool)

  /** An eth connection; `snap` says that the remote also advertises snap. */
  datatype Eth = Eth(id: Id, snap: bool)

  datatype Error = SnapWithoutEth | AlreadyRegistered | NotRegistered | SetClosed

  /** The fields of peerSet. A waiting eth handler is named by its channel. */
  datatype State = State(
    peers: map<Id, Option<Snap>>,
    snapPeers: int,
    snapWait: map<Id, nat>,
    snapPend: map<Id, Snap>,
    closed: bool)

  function Init(): State { State(map[], 0, map[], map[], false) }

  // ---------- The critical sections ----------

  datatype SnapOutcome = Refused(error: Error) | Handed(chan: nat) | Parked

  function SnapStep(s: State, p: Snap): (State, SnapOutcome) {
    if !p.eth then (s, Refused(SnapWithoutEth))
    else if p.id in s.peers then (s, Refused(AlreadyRegistered))
    else if p.id in s.snapPend then (s, Refused(AlreadyRegistered))
    else if p.id in s.snapWait then (s.(snapWait := s.snapWait - {p.id}), Handed(s.snapWait[p.id]))
    else (s.(snapPend := s.snapPend[p.id := p]), Parked)
  }

  datatype WaitOutcome = NoSnap | Failed(error: Error) | Got(ext: Snap) | Blocked

  /** waitSnapExtension up to the point where it receives from its channel. */
  function WaitStep(s: State, e: Eth, chan: nat): (State, WaitOutcome) {
    if !e.snap then (s, NoSnap)
    else if e.id in s.peers then (s, Failed(AlreadyRegistered))
    else if e.id in s.snapWait then (s, Failed(AlreadyRegistered))
    else if e.id in s.snapPend then (s.(snapPend := s.snapPend - {e.id}), Got(s.snapPend[e.id]))
    else (s.(snapWait := s.snapWait[e.id := chan]), Blocked)
  }

  function RegisterStep(s: State, e: Eth, ext: Option<Snap>): (State, Option<Error>) {
    if s.closed then (s, Some(SetClosed))
    else if e.id in s.peers then (s, Some(AlreadyRegistered))
    else (s.(peers := s.peers[e.id := ext], snapPeers := s.snapPeers + if ext.Some? then 1 else 0), None)
  }

  function UnregisterStep(s: State, id: Id): (State, Option<Error>) {
    if id !in s.peers then (s, Some(NotRegistered))
    else (s.(peers := s.peers - {id}, snapPeers := s.snapPeers - if s.peers[id].Some? then 1 else 0), None)
  }

  function CloseStep(s: State): State { s.(closed := true) }

  // ---------- What the fields keep ----------

  ghost function WithSnap(peers: map<Id, Option<Snap>>): set<Id> {
    set id | id in peers && peers[id].Some?
  }

  ghost predicate Counted(s: State) {
    s.snapPeers == |WithSnap(s.peers)|
  }

  lemma AddedPeer(peers: map<Id, Option<Snap>>, id: Id, ext: Option<Snap>)
    requires id !in peers
    ensures |WithSnap(peers[id := ext])| == |WithSnap(peers)| + if ext.Some? then 1 else 0
  {
    assert WithSnap(peers[id := ext]) == if ext.Some? then WithSnap(peers) + {id} else WithSnap(peers);
  }

  lemma RemovedPeer(peers: map<Id, Option<Snap>>, id: Id)
    requires id in peers
    ensures |WithSnap(peers - {id})| == |WithSnap(peers)| - if peers[id].Some? then 1 else 0
  {
    assert WithSnap(peers - {id}) == WithSnap(peers) - {id};
    assert peers[id].Some? ==> id in WithSnap(peers);
  }

  lemma SubsetSize(a: set<Id>, b: set<Id>)
    requires a <= b
    ensures |a| <= |b|
  {
    assert b == a + (b - a);
  }

  lemma SnapAtMostAll(s: State)
    requires Counted(s)
    ensures 0 <= s.snapPeers <= |s.peers|
  {
    SubsetSize(WithSnap(s.peers), s.peers.Keys);
  }

  // ---------- All interleavings ----------

  /** An eth handler that called waitSnapExtension. */
  datatype Waiter = Waiting(id: Id) | Received(id: Id, ext: Snap)

  /** The peer set with all handlers that wait or waited, the extensions ever accepted, and
      to whom each was handed. */
  datatype System = System(
    ps: State,
    waiters: map<nat, Waiter>,
    accepted: set<Snap>,
    handed: map<Snap, nat>)

  datatype Action =
    | SnapConnects(p: Snap)
    | EthWaits(e: Eth, chan: nat)
    | EthRegisters(e: Eth, ext: Option<Snap>)
    | EthLeaves(id: Id)
    | SetCloses

  function Start(): System { System(Init(), map[], {}, map[]) }

  /** A connection registers once, and every waiter makes its own channel. */
  predicate Enabled(y: System, a: Action) {
    match a
    case SnapConnects(p) => p !in y.accepted
    case EthWaits(_, chan) => chan !in y.waiters
    case _ => true
  }

  /** A hand-off is one step: the sender holds the lock until the waiter has received. */
  function Next(y: System, a: Action): System {
    match a
    case SnapConnects(p) =>
      var (ps, r) := SnapStep(y.ps, p);
      (match r
       case Refused(_) => y
       case Parked => y.(ps := ps, accepted := y.accepted + {p})
       case Handed(chan) =>
         System(ps, y.waiters[chan := Received(p.id, p)], y.accepted + {p}, y.handed[p := chan]))
    case EthWaits(e, chan) =>
      var (ps, r) := WaitStep(y.ps, e, chan);
      (match r
       case Got(ext) =>
         System(ps, y.waiters[chan := Received(e.id, ext)], y.accepted, y.handed[ext := chan])
       case Blocked => y.(ps := ps, waiters := y.waiters[chan := Waiting(e.id)])
       case _ => y)
    case EthRegisters(e, ext) => y.(ps := RegisterStep(y.ps, e, ext).0)
    case EthLeaves(id) => y.(ps := UnregisterStep(y.ps, id).0)
    case SetCloses => y.(ps := CloseStep(y.ps))
  }

  /** A parked extension is accepted, not handed to anyone, and stands under its own id. */
  ghost predicate ParkedOk(y: System) {
    forall id :: id in y.ps.snapPend ==>
      y.ps.snapPend[id].id == id && y.ps.snapPend[id] in y.accepted && y.ps.snapPend[id] !in y.handed
  }

  /** The channels in snapWait are exactly those of the handlers still waiting. */
  ghost predicate WaitersOk(y: System) {
    && (forall id :: id in y.ps.snapWait ==>
          y.ps.snapWait[id] in y.waiters && y.waiters[y.ps.snapWait[id]] == Waiting(id))
    && (forall w :: w in y.waiters && y.waiters[w].Waiting? ==>
          y.waiters[w].id in y.ps.snapWait && y.ps.snapWait[y.waiters[w].id] == w)
  }

  /** Who received what: the two records agree, and ids match. */
  ghost predicate HandedOk(y: System) {
    && (forall p :: p in y.handed ==>
          y.handed[p] in y.waiters && y.waiters[y.handed[p]] == Received(p.id, p) && p in y.accepted)
    && (forall w :: w in y.waiters && y.waiters[w].Received? ==>
          y.waiters[w].ext in y.handed && y.handed[y.waiters[w].ext] == w)
  }

  /** No accepted extension is lost. */
  ghost predicate NoneLost(y: System) {
    forall p :: p in y.accepted ==> p in y.handed || (p.id in y.ps.snapPend && y.ps.snapPend[p.id] == p)
  }

  ghost predicate Inv(y: System) {
    && Counted(y.ps)
    && y.ps.snapWait.Keys !! y.ps.snapPend.Keys
    && ParkedOk(y) && WaitersOk(y) && HandedOk(y) && NoneLost(y)
  }

  lemma SnapKeeps(y: System, p: Snap)
    requires Inv(y) && p !in y.accepted
    ensures Inv(Next(y, SnapConnects(p)))
  {
    var y' := Next(y, SnapConnects(p));
    var r := SnapStep(y.ps, p).1;
    if r.Handed? {
      assert y.ps.snapWait[p.id] == r.chan && p !in y.handed;
      assert WaitersOk(y') by {
        forall w | w in y'.waiters && y'.waiters[w].Waiting?
          ensures y'.waiters[w].id in y'.ps.snapWait && y'.ps.snapWait[y'.waiters[w].id] == w
        {
          assert w != r.chan;
        }
      }
    }
  }

  lemma WaitKeepsParked(y: System, e: Eth, chan: nat)
    requires ParkedOk(y) && NoneLost(y) && y.ps.snapWait.Keys !! y.ps.snapPend.Keys
    ensures var y' := Next(y, EthWaits(e, chan));
      ParkedOk(y') && NoneLost(y') && y'.ps.snapWait.Keys !! y'.ps.snapPend.Keys
  {
    var y' := Next(y, EthWaits(e, chan));
    if WaitStep(y.ps, e, chan).1.Got? {
      assert forall id :: id in y'.ps.snapPend ==> y'.ps.snapPend[id] == y.ps.snapPend[id] && id != e.id;
    }
  }

  lemma WaitKeepsWaiters(y: System, e: Eth, chan: nat)
    requires WaitersOk(y) && chan !in y.waiters
    ensures WaitersOk(Next(y, EthWaits(e, chan)))
  {
  }

  lemma WaitKeepsHanded(y: System, e: Eth, chan: nat)
    requires HandedOk(y) && ParkedOk(y) && chan !in y.waiters
    ensures HandedOk(Next(y, EthWaits(e, chan)))
  {
  }

  lemma WaitKeeps(y: System, e: Eth, chan: nat)
    requires Inv(y) && chan !in y.waiters
    ensures Inv(Next(y, EthWaits(e, chan)))
  {
    WaitKeepsParked(y, e, chan);
    WaitKeepsWaiters(y, e, chan);
    WaitKeepsHanded(y, e, chan);
  }

  lemma StepKeeps(y: System, a: Action)
    requires Inv(y) && Enabled(y, a)
    ensures Inv(Next(y, a))
  {
    match a
    case SnapConnects(p) => SnapKeeps(y, p);
    case EthWaits(e, chan) => WaitKeeps(y, e, chan);
    case EthRegisters(e, ext) =>
      if e.id !in y.ps.peers { AddedPeer(y.ps.peers, e.id, ext); }
    case EthLeaves(id) =>
      if id in y.ps.peers { RemovedPeer(y.ps.peers, id); }
    case SetCloses =>
  }

  /** A snap connection is accepted exactly when its remote also runs eth and is neither
      registered nor parked. It goes to the handler that waits for its id, or is parked. */
  lemma ConnectsExactly(y: System, p: Snap)
    requires Inv(y) && p !in y.accepted
    ensures var y' := Next(y, SnapConnects(p)); var id := p.id;
      && (p in y'.accepted <==> p.eth && id !in y.ps.peers && id !in y.ps.snapPend)
      && (p !in y'.accepted ==> y' == y)
      && (p in y'.accepted && id in y.ps.snapWait ==> p in y'.handed && y'.handed[p] == y.ps.snapWait[id])
      && (p in y'.accepted && id !in y.ps.snapWait ==> id in y'.ps.snapPend && y'.ps.snapPend[id] == p)
  {
  }

  /** An eth handler gets the extension parked under its id, or waits, exactly when its remote
      also runs snap and nobody is registered or waits under that id. */
  lemma WaitsExactly(y: System, e: Eth, chan: nat)
    requires Inv(y) && chan !in y.waiters
    ensures var y' := Next(y, EthWaits(e, chan)); var id := e.id;
      && (chan in y'.waiters <==> e.snap && id !in y.ps.peers && id !in y.ps.snapWait)
      && (chan !in y'.waiters ==> y' == y)
      && (chan in y'.waiters ==>
            y'.waiters[chan] == if id in y.ps.snapPend then Received(id, y.ps.snapPend[id]) else Waiting(id))
  {
  }

  ghost predicate IsRun(y: System, run: seq<Action>)
    decreases |run|
  {
    run == [] || (Enabled(y, run[0]) && IsRun(Next(y, run[0]), run[1..]))
  }

  ghost function Exec(y: System, run: seq<Action>): System
    requires IsRun(y, run)
    decreases |run|
  {
    if run == [] then y else Exec(Next(y, run[0]), run[1..])
  }

  lemma {:induction false} RunKeeps(y: System, run: seq<Action>)
    requires Inv(y) && IsRun(y, run)
    ensures Inv(Exec(y, run))
    decreases |run|
  {
    if run != [] {
      StepKeeps(y, run[0]);
      RunKeeps(Next(y, run[0]), run[1..]);
    }
  }

  lemma ClosedStep(y: System, a: Action)
    requires y.ps.closed
    ensures Next(y, a).ps.closed && Next(y, a).ps.peers.Keys <= y.ps.peers.Keys
  {
  }

  lemma {:induction false} ClosedRun(y: System, run: seq<Action>)
    requires y.ps.closed && IsRun(y, run)
    ensures Exec(y, run).ps.closed && Exec(y, run).ps.peers.Keys <= y.ps.peers.Keys
    decreases |run|
  {
    if run != [] {
      ClosedStep(y, run[0]);
      ClosedRun(Next(y, run[0]), run[1..]);
    }
  }

  lemma StartInv()
    ensures Inv(Start())
  {
    assert WithSnap(map[]) == {};
  }

  /** In every run the counter is right, nobody waits for an extension that is parked, and
      every handler still waiting is found by an extension with its id. */
  lemma PeerSetInvariant(run: seq<Action>, w: nat)
    requires IsRun(Start(), run)
    ensures var y := Exec(Start(), run);
      && y.ps.snapPeers == |WithSnap(y.ps.peers)| && 0 <= y.ps.snapPeers <= |y.ps.peers|
      && y.ps.snapWait.Keys !! y.ps.snapPend.Keys
      && (w in y.waiters && y.waiters[w].Waiting? ==>
            y.waiters[w].id in y.ps.snapWait && y.ps.snapWait[y.waiters[w].id] == w)
  {
    StartInv();
    RunKeeps(Start(), run);
    SnapAtMostAll(Exec(Start(), run).ps);
  }

  /** Every accepted extension is parked or was handed to one handler, under its own id; two
      handlers never share an extension. */
  lemma HandedOnce(run: seq<Action>, p: Snap, w: nat, w': nat)
    requires IsRun(Start(), run)
    ensures var y := Exec(Start(), run);
      && (p in y.accepted ==> (p in y.handed) != (p.id in y.ps.snapPend && y.ps.snapPend[p.id] == p))
      && (w in y.waiters && y.waiters[w].Received? ==> y.waiters[w].ext.id == y.waiters[w].id)
      && (w in y.waiters && w' in y.waiters && y.waiters[w].Received? && y.waiters[w] == y.waiters[w'] ==> w == w')
  {
    StartInv();
    RunKeeps(Start(), run);
  }

  /** After close no peer is ever added. */
  lemma ClosedForGood(run: seq<Action>, more: seq<Action>)
    requires IsRun(Start(), run) && IsRun(Exec(Start(), run), more) && Exec(Start(), run).ps.closed
    ensures Exec(Exec(Start(), run), more).ps.peers.Keys <= Exec(Start(), run).ps.peers.Keys
  {
    ClosedRun(Exec(Start(), run), more);
  }

  // ---------- Who is registered ----------

  predicate Registers(a: Action, id: Id) { a.EthRegisters? && a.e.id == id }

  lemma {:induction false} ExecLast(y: System, run: seq<Action>, a: Action)
    requires IsRun(y, run + [a])
    ensures IsRun(y, run) && Enabled(Exec(y, run), a) && Exec(y, run + [a]) == Next(Exec(y, run), a)
    decreases |run|
  {
    if run == [] {
      assert [] + [a] == [a];
    } else {
      assert (run + [a])[1..] == run[1..] + [a];
      ExecLast(Next(y, run[0]), run[1..], a);
    }
  }

  lemma SplitLast(run: seq<Action>) returns (before: seq<Action>, a: Action)
    requires run != []
    ensures run == before + [a]
  {
    before, a := run[..|run| - 1], run[|run| - 1];
  }

  lemma {:induction false} ClosedExactly(run: seq<Action>)
    requires IsRun(Start(), run)
    ensures Exec(Start(), run).ps.closed <==> SetCloses in run
    decreases |run|
  {
    if run != [] {
      var before, a := SplitLast(run);
      ExecLast(Start(), before, a);
      ClosedExactly(before);
    }
  }

  /** The action at i registers the id while the set is open, and no later one takes it
      out again. */
  predicate Stands(run: seq<Action>, i: nat, id: Id) {
    && i < |run| && Registers(run[i], id)
    && SetCloses !in run[..i] && EthLeaves(id) !in run[i..]
  }

  /** The action at i is the one that put the id in: whenever it was registered before, it
      was taken out in between. */
  ghost predicate PutIn(run: seq<Action>, i: nat, id: Id) {
    Stands(run, i, id) && forall j :: 0 <= j < i && Registers(run[j], id) ==> EthLeaves(id) in run[j..i]
  }

  lemma StandsStill(run: seq<Action>, a: Action, i: nat, id: Id)
    requires i < |run|
    ensures Stands(run + [a], i, id) <==> Stands(run, i, id) && a != EthLeaves(id)
    ensures PutIn(run + [a], i, id) <==> PutIn(run, i, id) && a != EthLeaves(id)
  {
    assert (run + [a])[..i] == run[..i] && (run + [a])[i..] == run[i..] + [a];
    assert forall j :: 0 <= j < i ==> (run + [a])[j] == run[j] && (run + [a])[j..i] == run[j..i];
  }

  lemma StandsNow(run: seq<Action>, a: Action, id: Id)
    ensures Stands(run + [a], |run|, id) <==> Registers(a, id) && SetCloses !in run
  {
    assert (run + [a])[..|run|] == run && (run + [a])[|run|..] == [a];
  }

  /** One step, seen from one id. */
  lemma StepRegisters(y: System, a: Action, id: Id)
    ensures id in Next(y, a).ps.peers <==>
      (id in y.ps.peers && a != EthLeaves(id)) || (Registers(a, id) && !y.ps.closed)
    ensures id in Next(y, a).ps.peers ==>
      Next(y, a).ps.peers[id] == if id in y.ps.peers then y.ps.peers[id] else a.ext
  {
  }

  lemma {:induction false} RegisteredIfStanding(run: seq<Action>, id: Id)
    requires IsRun(Start(), run)
    ensures id in Exec(Start(), run).ps.peers <==> exists i: nat :: Stands(run, i, id)
    decreases |run|
  {
    if run != [] {
      var before, a := SplitLast(run);
      ExecLast(Start(), before, a);
      RegisteredIfStanding(before, id);
      ClosedExactly(before);
      StepRegisters(Exec(Start(), before), a, id);
      StandsNow(before, a, id);
      forall i: nat | i < |before| ensures Stands(run, i, id) <==> Stands(before, i, id) && a != EthLeaves(id) {
        StandsStill(before, a, i, id);
      }
      assert forall i: nat :: Stands(run, i, id) ==> i < |before| || i == |before|;
    }
  }

  /** Nobody registered the id for good, so whoever did was followed by a leave. */
  lemma AllTakenOut(run: seq<Action>, id: Id, j: nat)
    requires (forall i: nat :: !Stands(run, i, id)) && SetCloses !in run && j < |run| && Registers(run[j], id)
    ensures EthLeaves(id) in run[j..]
  {
    assert !Stands(run, j, id);
  }

  lemma PutInNow(run: seq<Action>, a: Action, id: Id)
    requires (forall i: nat :: !Stands(run, i, id)) && SetCloses !in run && Registers(a, id)
    ensures PutIn(run + [a], |run|, id)
  {
    StandsNow(run, a, id);
    var n := |run|;
    forall j | 0 <= j < n && Registers((run + [a])[j], id) ensures EthLeaves(id) in (run + [a])[j..n] {
      AllTakenOut(run, id, j);
      assert (run + [a])[j..n] == run[j..];
    }
  }

  /** A registered peer has the extension of the action that put it in. */
  lemma {:induction false} PutInBy(run: seq<Action>, id: Id) returns (i: nat)
    requires IsRun(Start(), run) && id in Exec(Start(), run).ps.peers
    ensures PutIn(run, i, id) && run[i].ext == Exec(Start(), run).ps.peers[id]
    decreases |run|
  {
    var before, a := SplitLast(run);
    ExecLast(Start(), before, a);
    StepRegisters(Exec(Start(), before), a, id);
    if id in Exec(Start(), before).ps.peers {
      i := PutInBy(before, id);
      StandsStill(before, a, i, id);
    } else {
      i := |before|;
      RegisteredIfStanding(before, id);
      ClosedExactly(before);
      PutInNow(before, a, id);
    }
  }

  lemma NotPutInAfter(run: seq<Action>, i: nat, j: nat, id: Id)
    requires i < j < |run| && Stands(run, i, id)
    ensures !PutIn(run, j, id)
  {
    assert run[i..j] == run[i..][..j - i];
  }

  /** In every run the registered peers are exactly those that the run put in while the set
      was open and has not taken out again, each with the extension it was put in with. */
  lemma RegisteredExactly(run: seq<Action>, id: Id, ext: Option<Snap>)
    requires IsRun(Start(), run)
    ensures var peers := Exec(Start(), run).ps.peers;
      id in peers && peers[id] == ext <==> exists i: nat :: PutIn(run, i, id) && run[i].ext == ext
  {
    var peers := Exec(Start(), run).ps.peers;
    RegisteredIfStanding(run, id);
    if id in peers {
      var k := PutInBy(run, id);
      forall i: nat | i < |run| && i != k && Stands(run, i, id) ensures !PutIn(run, i, id) {
        if i < k {
          NotPutInAfter(run, i, k, id);
        } else {
          NotPutInAfter(run, k, i, id);
        }
      }
    }
  }

  // ---------- Parked though registered ----------

  /** What the comment on snapPend says: parked peers are not on eth yet. */
  ghost predicate ParkedNotRegistered(s: State) { s.snapPend.Keys !! s.peers.Keys }

  /** The step that ends it: a peer registers while an extension is parked under its id. */
  ghost predicate RegistersParked(y: System, a: Action) {
    a.EthRegisters? && a.e.id in y.ps.snapPend && !y.ps.closed
  }

  lemma BrokenExactlyBy(y: System, a: Action)
    requires ParkedNotRegistered(y.ps)
    ensures !ParkedNotRegistered(Next(y, a).ps) <==> RegistersParked(y, a)
  {
    var s, s' := y.ps, Next(y, a).ps;
    if RegistersParked(y, a) {
      assert a.e.id in s'.snapPend.Keys && a.e.id in s'.peers.Keys;
    }
  }

  /** The comment is true at the start and after every action of the run. */
  ghost predicate TrueThroughout(y: System, run: seq<Action>)
    decreases |run|
  {
    ParkedNotRegistered(y.ps) && (run == [] || TrueThroughout(Next(y, run[0]), run[1..]))
  }

  ghost predicate NeverRegistersParked(y: System, run: seq<Action>)
    decreases |run|
  {
    run == [] || (!RegistersParked(y, run[0]) && NeverRegistersParked(Next(y, run[0]), run[1..]))
  }

  lemma {:induction false} TrueExactlyFrom(y: System, run: seq<Action>)
    requires ParkedNotRegistered(y.ps)
    ensures TrueThroughout(y, run) <==> NeverRegistersParked(y, run)
    decreases |run|
  {
    if run != [] {
      var y' := Next(y, run[0]);
      BrokenExactlyBy(y, run[0]);
      if ParkedNotRegistered(y'.ps) {
        TrueExactlyFrom(y', run[1..]);
      }
    }
  }

  /** It is not an invariant, and a run keeps it throughout if and only if the run never
      registers a peer for whose id an extension is parked at that moment. */
  lemma TrueExactlyWhen(run: seq<Action>)
    requires IsRun(Start(), run)
    ensures TrueThroughout(Start(), run) <==> NeverRegistersParked(Start(), run)
  {
    TrueExactlyFrom(Start(), run);
  }

  /** Throughout means after every prefix. */
  lemma {:induction false} TrueAfterPrefix(y: System, run: seq<Action>, n: nat)
    requires IsRun(y, run) && TrueThroughout(y, run) && n <= |run|
    ensures IsRun(y, run[..n]) && ParkedNotRegistered(Exec(y, run[..n]).ps)
    decreases |run|
  {
    if n > 0 {
      TrueAfterPrefix(Next(y, run[0]), run[1..], n - 1);
      assert run[..n][1..] == run[1..][..n - 1];
    }
  }

  /** A run that reaches it: a second snap connection arrives between the hand-off of the
      first and the registration. */
  lemma ParkedAndRegistered()
    ensures var a, b, e := Snap(1, "p", true), Snap(2, "p", true), Eth("p", true);
      var run := [EthWaits(e, 0), SnapConnects(a), SnapConnects(b), EthRegisters(e, Some(a))];
      && IsRun(Start(), run)
      && var s := Exec(Start(), run).ps; "p" in s.peers && "p" in s.snapPend && s.snapPend["p"] == b
  {
    var a, b, e := Snap(1, "p", true), Snap(2, "p", true), Eth("p", true);
    var r4 := [EthRegisters(e, Some(a))];
    var r3 := [SnapConnects(b)] + r4;
    var r2 := [SnapConnects(a)] + r3;
    var r1 := [EthWaits(e, 0)] + r2;
    var y1 := Next(Start(), r1[0]);
    var y2 := Next(y1, r2[0]);
    var y3 := Next(y2, r3[0]);
    var y4 := Next(y3, r4[0]);
    assert r4[1..] == [] && r3[1..] == r4 && r2[1..] == r3 && r1[1..] == r2;
    assert IsRun(y4, []) && IsRun(y3, r4) && IsRun(y2, r3) && IsRun(y1, r2);
    assert Exec(y3, r4) == y4;
    assert Exec(y2, r3) == y4;
    assert Exec(y1, r2) == y4;
    assert r1 == [EthWaits(e, 0), SnapConnects(a), SnapConnects(b), EthRegisters(e, Some(a))];
  }

  /** peerSet itself; the lock makes every method one critical section. */
  class Peers {
    var peers: map<Id, Option<Snap>>
    var snapPeers: int
    var snapWait: map<Id, nat>
    var snapPend: map<Id, Snap>
    var closed: bool

    ghost function Abs(): State
      reads this
    {
      State(peers, snapPeers, snapWait, snapPend, closed)
    }

    /** The counter is right, no id is both awaited and parked, and parked connections
        stand under their own ids. */
    ghost predicate Valid()
      reads this
    {
      && snapPeers == |WithSnap(peers)| && snapWait.Keys !! snapPend.Keys
      && forall id :: id in snapPend ==> snapPend[id].id == id
    }

    constructor ()
      ensures Valid() && Abs() == Init() && peers == map[] && snapWait == map[] && snapPend == map[] && !closed
    {
      peers, snapPeers, snapWait, snapPend, closed := map[], 0, map[], map[], false;
      assert WithSnap(map[]) == {};
    }

    method RegisterSnapExtension(p: Snap) returns (r: SnapOutcome)
      requires Valid()
      modifies this
      ensures Valid() && (r.Handed? ==> p.id !in snapWait) && (r.Parked? ==> p.id !in snapWait && p.id !in peers)
      ensures (Abs(), r) == SnapStep(old(Abs()), p)
      ensures r == Refused(SnapWithoutEth) <==> !p.eth
      ensures r == Refused(AlreadyRegistered) <==> p.eth && (p.id in old(peers) || p.id in old(snapPend))
      ensures r.Handed? <==>
        p.eth && p.id !in old(peers) && p.id !in old(snapPend) && p.id in old(snapWait) && r.chan == old(snapWait)[p.id]
      ensures snapWait == if r.Handed? then old(snapWait) - {p.id} else old(snapWait)
      ensures snapPend == if r.Parked? then old(snapPend)[p.id := p] else old(snapPend)
      ensures peers == old(peers) && snapPeers == old(snapPeers) && closed == old(closed)
    {
      if !p.eth {
        return Refused(SnapWithoutEth);
      }
      if p.id in peers {
        return Refused(AlreadyRegistered);
      }
      if p.id in snapPend {
        return Refused(AlreadyRegistered);
      }
      if p.id in snapWait {
        var wait := snapWait[p.id];
        snapWait := snapWait - {p.id};
        return Handed(wait);
      }
      snapPend := snapPend[p.id := p];
      return Parked;
    }

    method WaitSnapExtension(e: Eth, wait: nat) returns (r: WaitOutcome)
      requires Valid()
      modifies this
      ensures Valid() && (r.Got? ==> r.ext.id == e.id && e.id !in snapPend)
      ensures (Abs(), r) == WaitStep(old(Abs()), e, wait)
      ensures r == NoSnap <==> !e.snap
      ensures r.Failed? <==> e.snap && (e.id in old(peers) || e.id in old(snapWait))
      ensures r.Failed? ==> r.error == AlreadyRegistered
      ensures r.Got? ==> e.id in old(snapPend) && r.ext == old(snapPend)[e.id]
      ensures r.Blocked? ==> e.id !in old(snapPend)
      ensures snapPend == if r.Got? then old(snapPend) - {e.id} else old(snapPend)
      ensures snapWait == if r.Blocked? then old(snapWait)[e.id := wait] else old(snapWait)
      ensures peers == old(peers) && snapPeers == old(snapPeers) && closed == old(closed)
    {
      if !e.snap {
        return NoSnap;
      }
      if e.id in peers {
        return Failed(AlreadyRegistered);
      }
      if e.id in snapWait {
        return Failed(AlreadyRegistered);
      }
      if e.id in snapPend {
        var snap := snapPend[e.id];
        snapPend := snapPend - {e.id};
        return Got(snap);
      }
      snapWait := snapWait[e.id := wait];
      return Blocked;
    }

    method RegisterPeer(e: Eth, ext: Option<Snap>) returns (r: Option<Error>)
      requires Valid()
      modifies this
      ensures Valid() && 0 <= snapPeers <= |peers|
      ensures (Abs(), r) == RegisterStep(old(Abs()), e, ext)
      ensures r == Some(SetClosed) <==> old(closed)
      ensures r == Some(AlreadyRegistered) <==> !old(closed) && e.id in old(peers)
      ensures r == None <==> !old(closed) && e.id !in old(peers)
      ensures peers == if r == None then old(peers)[e.id := ext] else old(peers)
      ensures snapWait == old(snapWait) && snapPend == old(snapPend) && closed == old(closed)
    {
      SnapAtMostAll(Abs());
      if closed {
        return Some(SetClosed);
      }
      if e.id in peers {
        return Some(AlreadyRegistered);
      }
      if ext.Some? {
        snapPeers := snapPeers + 1;
      }
      AddedPeer(peers, e.id, ext);
      peers := peers[e.id := ext];
      SnapAtMostAll(Abs());
      return None;
    }

    method UnregisterPeer(id: Id) returns (r: Option<Error>)
      requires Valid()
      modifies this
      ensures Valid() && 0 <= snapPeers <= |peers|
      ensures (Abs(), r) == UnregisterStep(old(Abs()), id)
      ensures r == if id in old(peers) then None else Some(NotRegistered)
      ensures peers == old(peers) - {id}
      ensures snapWait == old(snapWait) && snapPend == old(snapPend) && closed == old(closed)
    {
      SnapAtMostAll(Abs());
      if id !in peers {
        return Some(NotRegistered);
      }
      var peer := peers[id];
      RemovedPeer(peers, id);
      peers := peers - {id};
      if peer.Some? {
        snapPeers := snapPeers - 1;
      }
      SnapAtMostAll(Abs());
      return None;
    }

    method Close()
      requires Valid()
      modifies this
      ensures Valid() && Abs() == CloseStep(old(Abs())) && closed
      ensures peers == old(peers) && snapWait == old(snapWait) && snapPend == old(snapPend)
    {
      closed := true;
    }
  }
}
