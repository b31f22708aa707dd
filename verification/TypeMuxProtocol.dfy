/** Subscribe, Post, Unsubscribe and Stop of TypeMux (event/event.go) as a state machine over
    all interleavings.

    A step is a stretch of code between two points where a goroutine can block. Sections
    under mux.mutex that cannot block are one step; Stop holds the mutex over many steps,
    because closewait waits for readers of postMu.
 */
module TypeMuxProtocol {
  import opened TypeMuxLists

  type Tid = nat

  /** A reading of the clock. */
  type Time = nat

  /** The field postC: the open channel, the channel left in place after a close, or nil. */
  datatype PostC = Open | LeftClosed | Nil

  /** One TypeMuxSubscription. `typed` says that it was made with at least one type;
      `closing` that the closing channel is closed. */
  datatype SubState = SubState(
    created: Time, typed: bool, closed: bool, closing: bool, postC: PostC,
    closeMu: set<Tid>, readers: set<Tid>)

  /** What a goroutine does when its closewait returns. */
  datatype Then = Return | GoOn(rest: seq<Sub>)

  datatype Pc =
    | Posting(rest: seq<Sub>, time: Time)                // in Post, between two deliveries
    | Delivering(sub: Sub, rest: seq<Sub>, time: Time)   // holds sub.postMu for reading
    | Closing(sub: Sub, next: Then)                      // in closewait, before closeMu
    | Draining(sub: Sub, next: Then)                     // holds sub.closeMu, waits for sub.postMu
    | Stopping(rest: seq<Sub>)                           // in Stop, between two closewaits

  datatype State = State(
    lists: Lists,
    stopped: bool,
    stopper: set<Tid>,
    subs: map<Sub, SubState>,
    threads: map<Tid, Pc>,
    panicked: bool)

  function Init(): State { State(map[], false, {}, map[], map[], false) }

  /** Subscribe and Post read the clock before they take the mutex, so the times that they
      bring along can be in any order. */
  datatype Action =
    | Subscribe(sub: Sub, types: seq<Type>, created: Time)
    | BeginPost(tid: Tid, typ: Type, time: Time)
    | SkipStale(tid: Tid)
    | BeginDeliver(tid: Tid)
    | SendEvent(tid: Tid)
    | AbandonEvent(tid: Tid)
    | EndPost(tid: Tid)
    | Unsubscribe(tid: Tid, sub: Sub)
    | LockClose(tid: Tid)
    | FinishClose(tid: Tid)
    | BeginStop(tid: Tid, order: seq<Sub>)
    | NextStop(tid: Tid)
    | EndStop(tid: Tid)

  predicate At(s: State, tid: Tid) { tid in s.threads }

  predicate Known(s: State, sub: Sub) { sub in s.subs }

  /** The closewait in which a goroutine is, if any. */
  predicate InClose(pc: Pc, sub: Sub) {
    (pc.Closing? || pc.Draining?) && pc.sub == sub
  }

  /** The next subscription of a Post was made after the event. */
  predicate IsStale(s: State, pc: Pc) {
    pc.Posting? && pc.rest != [] && pc.rest[0] in s.subs && s.subs[pc.rest[0]].created > pc.time
  }

  ghost predicate Enabled(s: State, a: Action) {
    && !s.panicked
    && match a
       case Subscribe(sub, _, _) => s.stopper == {} && sub !in s.subs
       case BeginPost(tid, _, _) => s.stopper == {} && tid !in s.threads
       case SkipStale(tid) => At(s, tid) && IsStale(s, s.threads[tid])
       case BeginDeliver(tid) =>
         At(s, tid) && s.threads[tid].Posting? && s.threads[tid].rest != [] && Known(s, s.threads[tid].rest[0])
         && !IsStale(s, s.threads[tid])
       case SendEvent(tid) =>
         At(s, tid) && s.threads[tid].Delivering? && Known(s, s.threads[tid].sub)
         && s.subs[s.threads[tid].sub].postC != Nil
       case AbandonEvent(tid) =>
         At(s, tid) && s.threads[tid].Delivering? && Known(s, s.threads[tid].sub)
         && s.subs[s.threads[tid].sub].closing
       case EndPost(tid) => At(s, tid) && s.threads[tid].Posting? && s.threads[tid].rest == []
       case Unsubscribe(tid, sub) => s.stopper == {} && tid !in s.threads && sub in s.subs
       case LockClose(tid) =>
         At(s, tid) && s.threads[tid].Closing? && Known(s, s.threads[tid].sub)
         && s.subs[s.threads[tid].sub].closeMu == {}
       case FinishClose(tid) =>
         At(s, tid) && s.threads[tid].Draining? && Known(s, s.threads[tid].sub)
         && s.subs[s.threads[tid].sub].readers == {}
       case BeginStop(tid, order) =>
         s.stopper == {} && tid !in s.threads && forall x :: x in order <==> Listed(s.lists, x)
       case NextStop(tid) => At(s, tid) && s.threads[tid].Stopping? && s.threads[tid].rest != []
       case EndStop(tid) => At(s, tid) && s.threads[tid] == Stopping([])
  }

  function Put(s: State, tid: Tid, pc: Pc): State { s.(threads := s.threads[tid := pc]) }

  function Leave(s: State, tid: Tid): State { s.(threads := s.threads - {tid}) }

  function Resume(s: State, tid: Tid, next: Then): State {
    match next
    case Return => Leave(s, tid)
    case GoOn(rest) => Put(s, tid, Stopping(rest))
  }

  function Edit(s: State, sub: Sub, st: SubState): State { s.(subs := s.subs[sub := st]) }

  function Panic(s: State): State { s.(panicked := true) }

  /** The end of deliver: the read lock is released and Post goes on. */
  function DropReader(s: State, tid: Tid): State
    requires At(s, tid) && s.threads[tid].Delivering? && Known(s, s.threads[tid].sub)
  {
    var pc := s.threads[tid];
    var st := s.subs[pc.sub];
    Put(Edit(s, pc.sub, st.(readers := st.readers - {tid})), tid, Posting(pc.rest, pc.time))
  }

  /** One step. Sending on a closed channel and closing a channel that is closed or nil
      panic. A select never takes a nil postC. */
  function Next(s: State, a: Action): State
    requires Enabled(s, a)
  {
    match a
    case Subscribe(sub, types, created) =>
      var st := SubState(created, types != [], s.stopped, false, if s.stopped then LeftClosed else Open, {}, {});
      Edit(s, sub, st).(lists := if s.stopped then s.lists else Added(s.lists, types, sub))
    case BeginPost(tid, typ, time) =>
      if s.stopped then s else Put(s, tid, Posting(ListOf(s.lists, typ), time))
    case SkipStale(tid) =>
      Put(s, tid, Posting(s.threads[tid].rest[1..], s.threads[tid].time))
    case BeginDeliver(tid) =>
      var pc := s.threads[tid];
      var sub := pc.rest[0];
      var st := s.subs[sub].(readers := s.subs[sub].readers + {tid});
      Put(Edit(s, sub, st), tid, Delivering(sub, pc.rest[1..], pc.time))
    case SendEvent(tid) =>
      var sub := s.threads[tid].sub;
      if s.subs[sub].postC == LeftClosed then Panic(s) else DropReader(s, tid)
    case AbandonEvent(tid) => DropReader(s, tid)
    case EndPost(tid) => Leave(s, tid)
    case Unsubscribe(tid, sub) =>
      Put(s, tid, Closing(sub, Return)).(lists := Removed(s.lists, sub))
    case LockClose(tid) =>
      var sub, next := s.threads[tid].sub, s.threads[tid].next;
      var st := s.subs[sub];
      if st.closed then Resume(s, tid, next)
      else if st.closing then Panic(s)
      else Put(Edit(s, sub, st.(closing := true, closed := true, closeMu := {tid})), tid, Draining(sub, next))
    case FinishClose(tid) =>
      var sub, next := s.threads[tid].sub, s.threads[tid].next;
      var st := s.subs[sub];
      if st.postC != Open then Panic(s)
      else Resume(Edit(s, sub, st.(postC := Nil, closeMu := {})), tid, next)
    case BeginStop(tid, order) => Put(s, tid, Stopping(order)).(stopper := {tid})
    case NextStop(tid) =>
      Put(s, tid, Closing(s.threads[tid].rest[0], GoOn(s.threads[tid].rest[1..])))
    case EndStop(tid) =>
      Leave(s, tid).(lists := map[], stopped := true, stopper := {})
  }

  // ---------- The invariant ----------

  /** A subscription that deliveries may meet: it was put into a list when it was made. */
  predicate Reachable(s: State, sub: Sub) {
    sub in s.subs && s.subs[sub].postC != LeftClosed
  }

  predicate AllReachable(s: State, q: seq<Sub>) {
    forall i :: 0 <= i < |q| ==> Reachable(s, q[i])
  }

  predicate InStop(pc: Pc) {
    pc.Stopping? || ((pc.Closing? || pc.Draining?) && pc.next.GoOn?)
  }

  predicate ThenOk(s: State, next: Then) { next.GoOn? ==> AllReachable(s, next.rest) }

  predicate ThreadOk(s: State, tid: Tid)
    requires tid in s.threads
  {
    match s.threads[tid]
    case Posting(rest, _) => AllReachable(s, rest)
    case Delivering(sub, rest, _) => AllReachable(s, rest) && Reachable(s, sub) && tid in s.subs[sub].readers
    case Closing(sub, next) => sub in s.subs && ThenOk(s, next)
    case Draining(sub, next) =>
      && sub in s.subs && ThenOk(s, next)
      && s.subs[sub].closed && s.subs[sub].closing && s.subs[sub].postC == Open && s.subs[sub].closeMu == {tid}
    case Stopping(rest) => AllReachable(s, rest)
  }

  predicate IsDraining(s: State, tid: Tid, sub: Sub) {
    tid in s.threads && s.threads[tid].Draining? && s.threads[tid].sub == sub
  }

  predicate IsDelivering(s: State, tid: Tid, sub: Sub) {
    tid in s.threads && s.threads[tid].Delivering? && s.threads[tid].sub == sub
  }

  ghost predicate SubOk(s: State, sub: Sub)
    requires sub in s.subs
  {
    var st := s.subs[sub];
    && (st.closing ==> st.closed)
    && (st.postC != Open ==> st.closed)
    && (st.postC == Nil ==> st.closing)
    && (st.closed && st.postC == Open ==> st.closeMu != {})
    && (forall t :: t in st.closeMu ==> IsDraining(s, t, sub))
    && (forall t :: t in st.readers ==> IsDelivering(s, t, sub))
  }

  ghost predicate BeingClosed(s: State, sub: Sub) {
    exists t :: t in s.threads && InClose(s.threads[t], sub)
  }

  /** Nobody forgets a subscription: while its channel is open, either the lists still lead
      to it or some goroutine is in closewait for it. */
  ghost predicate Tracked(s: State, sub: Sub)
    requires sub in s.subs
  {
    s.subs[sub].typed && s.subs[sub].postC == Open ==> Listed(s.lists, sub) || BeingClosed(s, sub)
  }

  function Remaining(pc: Pc): seq<Sub> {
    match pc
    case Stopping(rest) => rest
    case Closing(_, GoOn(rest)) => rest
    case Draining(_, GoOn(rest)) => rest
    case _ => []
  }

  /** During a Stop, every listed subscription with an open channel is still to come or
      already in some closewait. */
  ghost predicate StopCovers(s: State, tid: Tid)
    requires tid in s.threads
  {
    forall x :: Listed(s.lists, x) && x in s.subs && s.subs[x].postC == Open ==>
      x in Remaining(s.threads[tid]) || BeingClosed(s, x)
  }

  /** Locks and channels: who holds what, and which channel may still be used. */
  ghost predicate Locks(s: State) {
    && (forall t :: t in s.threads ==> ThreadOk(s, t))
    && (forall x :: x in s.subs ==> SubOk(s, x))
  }

  /** Registration: the lists, the running Stop, and the open subscriptions. */
  ghost predicate Register(s: State) {
    && ListsOk(s.lists)
    && (forall x :: Listed(s.lists, x) ==> Reachable(s, x))
    && (forall t :: t in s.threads && InStop(s.threads[t]) ==> s.stopper == {t})
    && (forall t :: t in s.stopper ==> t in s.threads && InStop(s.threads[t]) && StopCovers(s, t))
    && (forall x :: x in s.subs ==> Tracked(s, x))
    && (s.stopped ==> s.lists == map[])
  }

  ghost predicate Inv(s: State) { !s.panicked && Locks(s) && Register(s) }

  // ---------- Steps of one goroutine ----------

  ghost predicate OthersStay(s: State, s': State, tid: Tid) {
    forall t :: t != tid ==> (t in s.threads <==> t in s'.threads) && (t in s.threads ==> s'.threads[t] == s.threads[t])
  }

  /** Only goroutine `tid` moved, and the mux itself is as before. */
  ghost predicate OnlyMoved(s: State, s': State, tid: Tid) {
    && s'.lists == s.lists && s'.stopped == s.stopped && s'.stopper == s.stopper && s'.panicked == s.panicked
    && OthersStay(s, s', tid)
    && s'.subs.Keys == s.subs.Keys
  }

  /** How subscription x may change while `tid` moves, as far as the others can see. */
  ghost predicate SubMoved(s: State, s': State, tid: Tid, x: Sub)
    requires x in s.subs && x in s'.subs
  {
    var st, st' := s.subs[x], s'.subs[x];
    && st'.typed == st.typed
    && (st'.postC == LeftClosed <==> st.postC == LeftClosed) && (st'.postC == Open ==> st.postC == Open)
    && st'.readers - {tid} == st.readers - {tid}
    && (st.closeMu - {tid} != {} ==>
          st'.closeMu == st.closeMu && st'.closed == st.closed && st'.closing == st.closing && st'.postC == st.postC)
  }

  lemma OthersOk(s: State, s': State, tid: Tid)
    requires Locks(s) && OthersStay(s, s', tid) && s.subs.Keys <= s'.subs.Keys
    requires forall x :: x in s.subs ==> SubMoved(s, s', tid, x)
    ensures forall t :: t in s'.threads && t != tid ==> ThreadOk(s', t)
    ensures forall x :: Reachable(s, x) ==> Reachable(s', x)
  {
    forall x | Reachable(s, x) ensures Reachable(s', x) {
      assert SubMoved(s, s', tid, x);
    }
    forall t | t in s'.threads && t != tid ensures ThreadOk(s', t) {
      assert ThreadOk(s, t);
      match s.threads[t]
      case Posting(_, _) =>
      case Delivering(x, _, _) => assert SubMoved(s, s', tid, x) && t in s.subs[x].readers - {tid};
      case Closing(_, _) =>
      case Draining(x, _) => assert SubMoved(s, s', tid, x);
      case Stopping(_) =>
    }
  }

  /** A move of `tid` that touches only the given subscriptions and leaves itself and them
      in order. */
  ghost predicate Move(s: State, s': State, tid: Tid, touched: set<Sub>) {
    && OnlyMoved(s, s', tid)
    && (forall x :: x in s.subs ==> SubMoved(s, s', tid, x))
    && (forall x :: x in s.subs && x !in touched ==>
          s'.subs[x] == s.subs[x] && !IsDraining(s, tid, x) && !IsDelivering(s, tid, x))
    && (forall x :: x in touched && x in s'.subs ==> SubOk(s', x))
    && (tid in s'.threads ==> ThreadOk(s', tid))
  }

  lemma LocksMoved(s: State, s': State, tid: Tid, touched: set<Sub>)
    requires Locks(s) && Move(s, s', tid, touched)
    ensures Locks(s')
  {
    OthersOk(s, s', tid);
    forall x | x in s'.subs ensures SubOk(s', x) {
      if x !in touched {
        assert SubOk(s, x);
      }
    }
  }

  /** The mover's duties to the registration: whoever was being closed still is, or has its
      channel closed now; a running Stop keeps all that it has still to close. */
  ghost predicate KeepsClosing(s: State, s': State, tid: Tid) {
    && (forall x :: x in s'.subs && s'.subs[x].postC == Open && BeingClosed(s, x) ==> BeingClosed(s', x))
    && (tid in s'.threads && InStop(s'.threads[tid]) ==> tid in s.stopper)
    && (tid in s.stopper ==> tid in s.threads && tid in s'.threads && InStop(s'.threads[tid]))
    && (tid in s.stopper ==>
          forall x :: x in Remaining(s.threads[tid]) ==> x in Remaining(s'.threads[tid]) || BeingClosed(s', x))
  }

  lemma RegisterMoved(s: State, s': State, tid: Tid)
    requires Register(s) && OnlyMoved(s, s', tid) && (forall x :: x in s.subs ==> SubMoved(s, s', tid, x))
    requires KeepsClosing(s, s', tid)
    ensures Register(s')
  {
    forall x | x in s'.subs ensures Tracked(s', x) {
      assert SubMoved(s, s', tid, x) && Tracked(s, x);
    }
    forall x | Listed(s'.lists, x) ensures Reachable(s', x) {
      assert Reachable(s, x) && SubMoved(s, s', tid, x);
    }
    forall t | t in s'.stopper ensures t in s'.threads && InStop(s'.threads[t]) && StopCovers(s', t) {
      assert StopCovers(s, t);
      forall x | Listed(s'.lists, x) && x in s'.subs && s'.subs[x].postC == Open
        ensures x in Remaining(s'.threads[t]) || BeingClosed(s', x)
      {
        assert SubMoved(s, s', tid, x);
      }
    }
  }

  lemma MoveKeeps(s: State, s': State, tid: Tid, touched: set<Sub>)
    requires Inv(s) && Move(s, s', tid, touched) && KeepsClosing(s, s', tid)
    ensures Inv(s')
  {
    LocksMoved(s, s', tid, touched);
    RegisterMoved(s, s', tid);
  }

  lemma StillClosed(s: State, s': State, tid: Tid, x: Sub)
    requires OthersStay(s, s', tid) && BeingClosed(s, x)
    requires tid in s.threads && InClose(s.threads[tid], x) ==> tid in s'.threads && InClose(s'.threads[tid], x)
    ensures BeingClosed(s', x)
  {
    var t :| t in s.threads && InClose(s.threads[t], x);
    assert t in s'.threads && InClose(s'.threads[t], x);
  }

  lemma StillAllClosed(s: State, s': State, tid: Tid)
    requires OthersStay(s, s', tid)
    requires tid in s.threads ==> forall x :: InClose(s.threads[tid], x) ==>
      (x in s'.subs && s'.subs[x].postC != Open) || (tid in s'.threads && InClose(s'.threads[tid], x))
    ensures forall x :: x in s'.subs && s'.subs[x].postC == Open && BeingClosed(s, x) ==> BeingClosed(s', x)
  {
    forall x | x in s'.subs && s'.subs[x].postC == Open && BeingClosed(s, x) ensures BeingClosed(s', x) {
      StillClosed(s, s', tid, x);
    }
  }

  lemma SkipStaleKeeps(s: State, tid: Tid)
    requires Inv(s) && Enabled(s, SkipStale(tid))
    ensures Inv(Next(s, SkipStale(tid)))
  {
    var s' := Next(s, SkipStale(tid));
    assert ThreadOk(s, tid);
    StillAllClosed(s, s', tid);
    MoveKeeps(s, s', tid, {});
  }

  lemma BeginDeliverMove(s: State, tid: Tid)
    requires Enabled(s, BeginDeliver(tid)) && ThreadOk(s, tid) && SubOk(s, s.threads[tid].rest[0])
    ensures Move(s, Next(s, BeginDeliver(tid)), tid, {s.threads[tid].rest[0]})
  {
  }

  lemma BeginDeliverKeeps(s: State, tid: Tid)
    requires Inv(s) && Enabled(s, BeginDeliver(tid))
    ensures Inv(Next(s, BeginDeliver(tid)))
  {
    var s' := Next(s, BeginDeliver(tid));
    BeginDeliverMove(s, tid);
    StillAllClosed(s, s', tid);
    MoveKeeps(s, s', tid, {s.threads[tid].rest[0]});
  }

  lemma DropReaderMove(s: State, tid: Tid)
    requires tid in s.threads && s.threads[tid].Delivering? && s.threads[tid].sub in s.subs
    requires ThreadOk(s, tid) && SubOk(s, s.threads[tid].sub)
    ensures Move(s, DropReader(s, tid), tid, {s.threads[tid].sub})
  {
  }

  lemma DropReaderKeeps(s: State, tid: Tid)
    requires Inv(s) && tid in s.threads && s.threads[tid].Delivering? && s.threads[tid].sub in s.subs
    ensures Inv(DropReader(s, tid))
  {
    var s' := DropReader(s, tid);
    DropReaderMove(s, tid);
    StillAllClosed(s, s', tid);
    MoveKeeps(s, s', tid, {s.threads[tid].sub});
  }

  lemma EndPostKeeps(s: State, tid: Tid)
    requires Inv(s) && Enabled(s, EndPost(tid))
    ensures Inv(Next(s, EndPost(tid)))
  {
    var s' := Next(s, EndPost(tid));
    StillAllClosed(s, s', tid);
    MoveKeeps(s, s', tid, {});
  }

  lemma NextStopMove(s: State, tid: Tid)
    requires Enabled(s, NextStop(tid)) && ThreadOk(s, tid)
    ensures Move(s, Next(s, NextStop(tid)), tid, {})
  {
  }

  lemma NextStopKeeps(s: State, tid: Tid)
    requires Inv(s) && Enabled(s, NextStop(tid))
    ensures Inv(Next(s, NextStop(tid)))
  {
    var s' := Next(s, NextStop(tid));
    NextStopMove(s, tid);
    assert InClose(s'.threads[tid], s.threads[tid].rest[0]);
    StillAllClosed(s, s', tid);
    MoveKeeps(s, s', tid, {});
  }

  lemma AlreadyClosedMove(s: State, tid: Tid)
    requires Enabled(s, LockClose(tid)) && s.subs[s.threads[tid].sub].closed
    requires ThreadOk(s, tid) && SubOk(s, s.threads[tid].sub)
    ensures Move(s, Next(s, LockClose(tid)), tid, {}) && s.subs[s.threads[tid].sub].postC != Open
  {
  }

  /** A closewait that finds the subscription closed returns; nobody holds closeMu, so the
      channel is closed as well. */
  lemma AlreadyClosedKeeps(s: State, tid: Tid)
    requires Inv(s) && Enabled(s, LockClose(tid)) && s.subs[s.threads[tid].sub].closed
    ensures Inv(Next(s, LockClose(tid)))
  {
    var s' := Next(s, LockClose(tid));
    AlreadyClosedMove(s, tid);
    StillAllClosed(s, s', tid);
    MoveKeeps(s, s', tid, {});
  }

  lemma LockCloseMove(s: State, tid: Tid)
    requires Enabled(s, LockClose(tid)) && !s.subs[s.threads[tid].sub].closed
    requires ThreadOk(s, tid) && SubOk(s, s.threads[tid].sub)
    ensures !Next(s, LockClose(tid)).panicked
    ensures Move(s, Next(s, LockClose(tid)), tid, {s.threads[tid].sub})
  {
  }

  lemma LockCloseKeeps(s: State, tid: Tid)
    requires Inv(s) && Enabled(s, LockClose(tid)) && !s.subs[s.threads[tid].sub].closed
    ensures Inv(Next(s, LockClose(tid)))
  {
    var s' := Next(s, LockClose(tid));
    LockCloseMove(s, tid);
    StillAllClosed(s, s', tid);
    MoveKeeps(s, s', tid, {s.threads[tid].sub});
  }

  lemma FinishCloseMove(s: State, tid: Tid)
    requires Enabled(s, FinishClose(tid)) && ThreadOk(s, tid) && SubOk(s, s.threads[tid].sub)
    ensures !Next(s, FinishClose(tid)).panicked
    ensures Move(s, Next(s, FinishClose(tid)), tid, {s.threads[tid].sub})
  {
    var s', sub := Next(s, FinishClose(tid)), s.threads[tid].sub;
    assert SubOk(s', sub);
    if s.threads[tid].next.GoOn? {
      assert AllReachable(s', s.threads[tid].next.rest);
    }
  }

  lemma FinishCloseKeeps(s: State, tid: Tid)
    requires Inv(s) && Enabled(s, FinishClose(tid))
    ensures Inv(Next(s, FinishClose(tid)))
  {
    var s' := Next(s, FinishClose(tid));
    FinishCloseMove(s, tid);
    StillAllClosed(s, s', tid);
    MoveKeeps(s, s', tid, {s.threads[tid].sub});
  }

  // ---------- Steps under the mux mutex ----------

  lemma BeginPostKeeps(s: State, tid: Tid, typ: Type, time: Time)
    requires Inv(s) && Enabled(s, BeginPost(tid, typ, time))
    ensures Inv(Next(s, BeginPost(tid, typ, time)))
  {
    if !s.stopped {
      var s' := Next(s, BeginPost(tid, typ, time));
      var q := ListOf(s.lists, typ);
      forall i | 0 <= i < |q| ensures Reachable(s', q[i]) {
        assert Listed(s.lists, q[i]);
      }
      StillAllClosed(s, s', tid);
      MoveKeeps(s, s', tid, {});
    }
  }

  lemma SubscribeLocks(s: State, sub: Sub, types: seq<Type>, created: Time)
    requires Inv(s) && Enabled(s, Subscribe(sub, types, created))
    ensures Locks(Next(s, Subscribe(sub, types, created)))
  {
    var s' := Next(s, Subscribe(sub, types, created));
    forall t | t in s'.threads ensures ThreadOk(s', t) {
      assert ThreadOk(s, t);
    }
    forall x | x in s'.subs ensures SubOk(s', x) {
      if x != sub {
        assert SubOk(s, x);
      }
    }
  }

  lemma SubscribeKeeps(s: State, sub: Sub, types: seq<Type>, created: Time)
    requires Inv(s) && Enabled(s, Subscribe(sub, types, created))
    ensures Inv(Next(s, Subscribe(sub, types, created)))
  {
    var s' := Next(s, Subscribe(sub, types, created));
    SubscribeLocks(s, sub, types, created);
    AddedSpec(s.lists, types, sub);
    forall x ensures Listed(s'.lists, x) ==> Reachable(s', x) {
      if !s.stopped && x != sub {
        AddedListed(s.lists, types, sub, x);
      }
    }
    forall x | x in s'.subs ensures Tracked(s', x) {
      if !s.stopped {
        AddedListed(s.lists, types, sub, x);
      }
      if x != sub {
        assert Tracked(s, x);
        assert BeingClosed(s, x) ==> BeingClosed(s', x);
      }
    }
  }

  lemma UnsubscribeKeeps(s: State, tid: Tid, sub: Sub)
    requires Inv(s) && Enabled(s, Unsubscribe(tid, sub))
    ensures Inv(Next(s, Unsubscribe(tid, sub)))
  {
    var s' := Next(s, Unsubscribe(tid, sub));
    RemovedSpec(s.lists, sub);
    OthersOk(s, s', tid);
    forall x | x in s'.subs ensures SubOk(s', x) && Tracked(s', x) {
      assert SubOk(s, x) && Tracked(s, x);
      if x == sub {
        assert InClose(s'.threads[tid], sub);
      } else if BeingClosed(s, x) {
        StillClosed(s, s', tid, x);
      }
    }
    forall x | Listed(s'.lists, x) ensures Reachable(s', x) {
      assert x != sub;
      assert Reachable(s, x);
    }
  }

  lemma BeginStopKeeps(s: State, tid: Tid, order: seq<Sub>)
    requires Inv(s) && Enabled(s, BeginStop(tid, order))
    ensures Inv(Next(s, BeginStop(tid, order)))
  {
    var s' := Next(s, BeginStop(tid, order));
    OthersOk(s, s', tid);
    forall i | 0 <= i < |order| ensures Reachable(s', order[i]) {
      assert Listed(s.lists, order[i]);
    }
    forall x | x in s'.subs ensures SubOk(s', x) && Tracked(s', x) {
      assert SubOk(s, x) && Tracked(s, x);
      if BeingClosed(s, x) {
        StillClosed(s, s', tid, x);
      }
    }
    assert StopCovers(s', tid);
  }

  lemma EndStopKeeps(s: State, tid: Tid)
    requires Inv(s) && Enabled(s, EndStop(tid))
    ensures Inv(Next(s, EndStop(tid)))
  {
    var s' := Next(s, EndStop(tid));
    OthersOk(s, s', tid);
    assert InStop(s.threads[tid]) && tid in s.stopper && StopCovers(s, tid);
    forall x | x in s'.subs ensures SubOk(s', x) && Tracked(s', x) {
      assert SubOk(s, x) && Tracked(s, x);
      if BeingClosed(s, x) {
        StillClosed(s, s', tid, x);
      }
    }
  }

  lemma StepKeeps(s: State, a: Action)
    requires Inv(s) && Enabled(s, a)
    ensures Inv(Next(s, a))
  {
    match a
    case Subscribe(sub, types, created) => SubscribeKeeps(s, sub, types, created);
    case BeginPost(tid, typ, time) => BeginPostKeeps(s, tid, typ, time);
    case SkipStale(tid) => SkipStaleKeeps(s, tid);
    case BeginDeliver(tid) => BeginDeliverKeeps(s, tid);
    case SendEvent(tid) => assert ThreadOk(s, tid); DropReaderKeeps(s, tid);
    case AbandonEvent(tid) => DropReaderKeeps(s, tid);
    case EndPost(tid) => EndPostKeeps(s, tid);
    case Unsubscribe(tid, sub) => UnsubscribeKeeps(s, tid, sub);
    case LockClose(tid) =>
      if s.subs[s.threads[tid].sub].closed {
        AlreadyClosedKeeps(s, tid);
      } else {
        LockCloseKeeps(s, tid);
      }
    case FinishClose(tid) => FinishCloseKeeps(s, tid);
    case BeginStop(tid, order) => BeginStopKeeps(s, tid, order);
    case NextStop(tid) => NextStopKeeps(s, tid);
    case EndStop(tid) => EndStopKeeps(s, tid);
  }

  // ---------- Runs ----------

  ghost predicate IsRun(s: State, run: seq<Action>)
    decreases |run|
  {
    run == [] || (Enabled(s, run[0]) && IsRun(Next(s, run[0]), run[1..]))
  }

  ghost function Exec(s: State, run: seq<Action>): State
    requires IsRun(s, run)
    decreases |run|
  {
    if run == [] then s else Exec(Next(s, run[0]), run[1..])
  }

  lemma {:induction false} RunKeeps(s: State, run: seq<Action>)
    requires Inv(s) && IsRun(s, run)
    ensures Inv(Exec(s, run))
    decreases |run|
  {
    if run != [] {
      StepKeeps(s, run[0]);
      RunKeeps(Next(s, run[0]), run[1..]);
    }
  }

  /** No interleaving sends on a closed channel or closes a channel twice, and a goroutine
      in the select of deliver never faces a closed channel that is not nil. */
  lemma NoSendOnClosed(run: seq<Action>, tid: Tid)
    requires IsRun(Init(), run)
    ensures var s := Exec(Init(), run);
      && !s.panicked
      && (tid in s.threads && s.threads[tid].Delivering? ==>
            s.threads[tid].sub in s.subs && s.subs[s.threads[tid].sub].postC != LeftClosed)
  {
    RunKeeps(Init(), run);
    var s := Exec(Init(), run);
    assert tid in s.threads ==> ThreadOk(s, tid);
  }

  /** closewait never waits for a reader that cannot leave. */
  lemma ReadersCanLeave(run: seq<Action>, closer: Tid, reader: Tid)
    requires IsRun(Init(), run)
    requires var s := Exec(Init(), run);
      && closer in s.threads && s.threads[closer].Draining?
      && s.threads[closer].sub in s.subs && reader in s.subs[s.threads[closer].sub].readers
    ensures Enabled(Exec(Init(), run), AbandonEvent(reader))
  {
    RunKeeps(Init(), run);
    var s := Exec(Init(), run);
    assert ThreadOk(s, closer) && SubOk(s, s.threads[closer].sub);
    assert IsDelivering(s, reader, s.threads[closer].sub);
  }

  /** After Stop, every subscription made with a type has its channel closed, unless an
      Unsubscribe that is still running is about to close it. */
  lemma StopClosesAll(run: seq<Action>, sub: Sub)
    requires IsRun(Init(), run) && Exec(Init(), run).stopped
    requires sub in Exec(Init(), run).subs && Exec(Init(), run).subs[sub].typed
    ensures var s := Exec(Init(), run); s.subs[sub].postC != Open || BeingClosed(s, sub)
  {
    RunKeeps(Init(), run);
    assert Tracked(Exec(Init(), run), sub);
  }

  // Without a type the promise fails: such a subscription is in no list.

  ghost predicate Untouched(s: State, sub: Sub) {
    && !Listed(s.lists, sub)
    && (forall t :: t in s.threads ==> !InClose(s.threads[t], sub) && sub !in Remaining(s.threads[t]))
    && (sub in s.subs ==> s.subs[sub].postC != Nil)
  }

  ghost predicate UntypedUntouched(s: State, sub: Sub) {
    (sub in s.subs ==> !s.subs[sub].typed) ==> Untouched(s, sub)
  }

  lemma TypedStays(s: State, a: Action, sub: Sub)
    requires Enabled(s, a) && sub in s.subs
    ensures sub in Next(s, a).subs && Next(s, a).subs[sub].typed == s.subs[sub].typed
  {
  }

  lemma UntouchedMove(s: State, a: Action, sub: Sub)
    requires Enabled(s, a) && Untouched(s, sub) && !a.Subscribe? && !a.Unsubscribe?
    ensures Untouched(Next(s, a), sub)
  {
  }

  lemma StepKeepsUntouched(s: State, a: Action, sub: Sub)
    requires ListsOk(s.lists) && Enabled(s, a) && UntypedUntouched(s, sub) && !(a.Unsubscribe? && a.sub == sub)
    ensures UntypedUntouched(Next(s, a), sub)
  {
    if sub in s.subs {
      TypedStays(s, a, sub);
    }
    if Untouched(s, sub) {
      match a
      case Subscribe(x, types, _) =>
        if !s.stopped { AddedListed(s.lists, types, x, sub); }
      case Unsubscribe(_, x) => RemovedSpec(s.lists, x);
      case _ => UntouchedMove(s, a, sub);
    }
  }

  lemma {:induction false} RunKeepsUntouched(s: State, run: seq<Action>, sub: Sub)
    requires Inv(s) && IsRun(s, run) && UntypedUntouched(s, sub)
    requires forall i :: 0 <= i < |run| ==> !(run[i].Unsubscribe? && run[i].sub == sub)
    ensures UntypedUntouched(Exec(s, run), sub)
    decreases |run|
  {
    if run != [] {
      StepKeeps(s, run[0]);
      StepKeepsUntouched(s, run[0], sub);
      RunKeepsUntouched(Next(s, run[0]), run[1..], sub);
    }
  }

  // ---------- When a subscription ends ----------

  /** Its channel is closed, or some closewait is about to close it. */
  ghost predicate Ended(s: State, sub: Sub) {
    sub in s.subs && (s.subs[sub].postC != Open || BeingClosed(s, sub))
  }

  /** The steps that end a subscription themselves: Unsubscribe, and a Subscribe that hands
      it out closed because the mux is stopped. */
  predicate Ends(s: State, a: Action, sub: Sub) {
    || (a.Unsubscribe? && a.sub == sub)
    || (a.Subscribe? && a.sub == sub && s.stopped)
  }

  ghost predicate EndsIn(s: State, run: seq<Action>, sub: Sub)
    requires IsRun(s, run)
    decreases |run|
  {
    run != [] && (Ends(s, run[0], sub) || EndsIn(Next(s, run[0]), run[1..], sub))
  }

  lemma EndsNow(s: State, a: Action, sub: Sub)
    requires Enabled(s, a) && Ends(s, a, sub)
    ensures Ended(Next(s, a), sub)
  {
    var s' := Next(s, a);
    if a.Unsubscribe? {
      assert InClose(s'.threads[a.tid], sub);
    }
  }

  lemma NeverReopened(s: State, a: Action, sub: Sub)
    requires Enabled(s, a) && sub in s.subs && s.subs[sub].postC != Open
    ensures sub in Next(s, a).subs && Next(s, a).subs[sub].postC != Open
  {
  }

  /** A closewait goes on until the channel is closed. */
  lemma CloseGoesOn(s: State, a: Action, sub: Sub, t: Tid)
    requires Locks(s) && Enabled(s, a) && sub in s.subs && t in s.threads && InClose(s.threads[t], sub)
    ensures var s' := Next(s, a);
      sub in s'.subs && (s'.subs[sub].postC != Open || (t in s'.threads && InClose(s'.threads[t], sub)))
  {
    assert SubOk(s, sub) && ThreadOk(s, t);
  }

  lemma StepKeepsEnded(s: State, a: Action, sub: Sub)
    requires Inv(s) && Enabled(s, a) && Ended(s, sub)
    ensures Ended(Next(s, a), sub)
  {
    if s.subs[sub].postC != Open {
      NeverReopened(s, a, sub);
    } else {
      var t :| t in s.threads && InClose(s.threads[t], sub);
      CloseGoesOn(s, a, sub, t);
    }
  }

  lemma {:induction false} RunKeepsEnded(s: State, run: seq<Action>, sub: Sub)
    requires Inv(s) && IsRun(s, run) && (Ended(s, sub) || EndsIn(s, run, sub))
    ensures Ended(Exec(s, run), sub)
    decreases |run|
  {
    if run != [] {
      StepKeeps(s, run[0]);
      if Ended(s, sub) {
        StepKeepsEnded(s, run[0], sub);
      } else if Ends(s, run[0], sub) {
        EndsNow(s, run[0], sub);
      }
      RunKeepsEnded(Next(s, run[0]), run[1..], sub);
    }
  }

  /** A subscription without a type that nothing has ended yet: no list and no closewait
      leads to it, and its channel is open. */
  ghost predicate UntypedOpen(s: State, sub: Sub) {
    UntypedUntouched(s, sub) && (sub in s.subs && !s.subs[sub].typed ==> s.subs[sub].postC == Open)
  }

  lemma StaysOpen(s: State, a: Action, sub: Sub)
    requires Enabled(s, a) && sub in s.subs && s.subs[sub].postC == Open && Untouched(s, sub)
    ensures sub in Next(s, a).subs && Next(s, a).subs[sub].postC == Open
  {
  }

  lemma StepKeepsOpen(s: State, a: Action, sub: Sub)
    requires ListsOk(s.lists) && Enabled(s, a) && UntypedOpen(s, sub) && !Ends(s, a, sub)
    ensures UntypedOpen(Next(s, a), sub)
  {
    StepKeepsUntouched(s, a, sub);
    if sub in s.subs {
      TypedStays(s, a, sub);
      if !s.subs[sub].typed {
        StaysOpen(s, a, sub);
      }
    }
  }

  lemma {:induction false} RunKeepsOpen(s: State, run: seq<Action>, sub: Sub)
    requires Inv(s) && IsRun(s, run) && UntypedOpen(s, sub) && !EndsIn(s, run, sub)
    ensures UntypedOpen(Exec(s, run), sub)
    decreases |run|
  {
    if run != [] {
      StepKeeps(s, run[0]);
      StepKeepsOpen(s, run[0], sub);
      RunKeepsOpen(Next(s, run[0]), run[1..], sub);
    }
  }

  /** Without a type nothing but an Unsubscribe ends a subscription, unless it was handed out
      closed. */
  lemma UntypedEndsExactly(run: seq<Action>, sub: Sub)
    requires IsRun(Init(), run)
    requires sub in Exec(Init(), run).subs && !Exec(Init(), run).subs[sub].typed
    ensures Ended(Exec(Init(), run), sub) <==> EndsIn(Init(), run, sub)
  {
    if EndsIn(Init(), run, sub) {
      RunKeepsEnded(Init(), run, sub);
    } else {
      RunKeepsOpen(Init(), run, sub);
    }
  }

  /** What the documentation of Subscribe promises, exactly: when the mux is stopped, a
      subscription's channel is closed or being closed if and only if the subscription was
      made with a type, was unsubscribed, or was handed out closed. */
  lemma ClosedExactlyWhen(run: seq<Action>, sub: Sub)
    requires IsRun(Init(), run) && Exec(Init(), run).stopped && sub in Exec(Init(), run).subs
    ensures var s := Exec(Init(), run);
      s.subs[sub].postC != Open || BeingClosed(s, sub) <==> s.subs[sub].typed || EndsIn(Init(), run, sub)
  {
    if Exec(Init(), run).subs[sub].typed {
      StopClosesAll(run, sub);
    } else {
      UntypedEndsExactly(run, sub);
    }
  }

  /** A subscription made without a type and never unsubscribed keeps the channel it was
      handed out with, whatever the others do: open, or closed from the start. */
  lemma StopSkipsUntyped(run: seq<Action>, sub: Sub)
    requires IsRun(Init(), run)
    requires sub in Exec(Init(), run).subs && !Exec(Init(), run).subs[sub].typed
    requires forall i :: 0 <= i < |run| ==> !(run[i].Unsubscribe? && run[i].sub == sub)
    ensures var s := Exec(Init(), run);
      s.subs[sub].postC == (if EndsIn(Init(), run, sub) then LeftClosed else Open) && !BeingClosed(s, sub)
  {
    RunKeepsUntouched(Init(), run, sub);
    UntypedEndsExactly(run, sub);
  }

  /** A run that shows it: the mux is stopped and the channel is open for good. */
  lemma UntypedSurvivesStop()
    ensures var run := [Subscribe(0, [], 0), BeginStop(0, []), EndStop(0)];
      && IsRun(Init(), run)
      && var s := Exec(Init(), run); s.stopped && s.subs[0].postC == Open && !BeingClosed(s, 0)
  {
    var a, b, c := Subscribe(0, [], 0), BeginStop(0, []), EndStop(0);
    var s0 := Init();
    var s1 := Next(s0, a);
    assert s1.lists == map[];
    var s2 := Next(s1, b);
    var s3 := Next(s2, c);
    assert IsRun(s3, []);
    assert [c][1..] == [] && IsRun(s2, [c]);
    assert [b, c][1..] == [c] && IsRun(s1, [b, c]);
    assert [a, b, c][1..] == [b, c] && IsRun(s0, [a, b, c]);
    assert Exec(s2, [c]) == s3;
    assert Exec(s1, [b, c]) == s3;
  }

  // ---------- Deliveries after Stop ----------

  predicate Typed(s: State, x: Sub) { x in s.subs && s.subs[x].typed }

  predicate AllTyped(s: State, q: seq<Sub>) { forall i :: 0 <= i < |q| ==> Typed(s, q[i]) }

  /** A Post goes to subscriptions made with a type only. */
  predicate PostsTyped(s: State, pc: Pc) {
    match pc
    case Posting(rest, _) => AllTyped(s, rest)
    case Delivering(sub, rest, _) => Typed(s, sub) && AllTyped(s, rest)
    case _ => true
  }

  /** A Stop of a stopped mux has nothing to close. */
  predicate StopsIdly(s: State, pc: Pc) { s.stopped && InStop(pc) ==> pc == Stopping([]) }

  ghost predicate TypedOnly(s: State) {
    && (forall x :: Listed(s.lists, x) ==> Typed(s, x))
    && (forall t :: t in s.threads ==> PostsTyped(s, s.threads[t]) && StopsIdly(s, s.threads[t]))
  }

  /** What a step leaves in a goroutine's hands is what it had, or comes from the lists. */
  lemma MovedTyped(s: State, a: Action, t: Tid)
    requires Enabled(s, a) && !a.Subscribe? && TypedOnly(s) && t in Next(s, a).threads
    ensures PostsTyped(s, Next(s, a).threads[t])
  {
    if a.BeginPost? && !s.stopped {
      var q := ListOf(s.lists, a.typ);
      forall i | 0 <= i < |q| ensures Typed(s, q[i]) {
        assert Listed(s.lists, q[i]);
      }
    }
  }

  lemma StaysTyped(s: State, a: Action, pc: Pc)
    requires Enabled(s, a) && PostsTyped(s, pc)
    ensures PostsTyped(Next(s, a), pc)
  {
    forall x | Typed(s, x) ensures Typed(Next(s, a), x) {
      TypedStays(s, a, x);
    }
  }

  lemma ListedTyped(s: State, a: Action, x: Sub)
    requires ListsOk(s.lists) && Enabled(s, a) && TypedOnly(s) && Listed(Next(s, a).lists, x)
    ensures Typed(Next(s, a), x)
  {
    match a
    case Subscribe(sub, types, _) =>
      if !s.stopped {
        AddedListed(s.lists, types, sub, x);
      }
    case Unsubscribe(_, sub) => RemovedSpec(s.lists, sub);
    case _ =>
    if Typed(s, x) {
      TypedStays(s, a, x);
    }
  }

  lemma FirstInside(q: seq<Sub>)
    ensures q == [] || q[0] in q
  {
  }

  lemma StaysIdle(s: State, a: Action, t: Tid)
    requires Inv(s) && Enabled(s, a) && TypedOnly(s) && t in Next(s, a).threads
    ensures StopsIdly(Next(s, a), Next(s, a).threads[t])
  {
    if a.BeginStop? && s.stopped {
      FirstInside(a.order);
      assert forall x :: !Listed(map[], x);
    }
  }

  lemma StepKeepsTyped(s: State, a: Action)
    requires Inv(s) && Enabled(s, a) && TypedOnly(s)
    ensures TypedOnly(Next(s, a))
  {
    var s' := Next(s, a);
    forall x | Listed(s'.lists, x) ensures Typed(s', x) {
      ListedTyped(s, a, x);
    }
    forall t | t in s'.threads ensures PostsTyped(s', s'.threads[t]) && StopsIdly(s', s'.threads[t]) {
      if !a.Subscribe? {
        MovedTyped(s, a, t);
      }
      StaysTyped(s, a, s'.threads[t]);
      StaysIdle(s, a, t);
    }
  }

  lemma {:induction false} RunKeepsTyped(s: State, run: seq<Action>)
    requires Inv(s) && IsRun(s, run) && TypedOnly(s)
    ensures TypedOnly(Exec(s, run))
    decreases |run|
  {
    if run != [] {
      StepKeeps(s, run[0]);
      StepKeepsTyped(s, run[0]);
      RunKeepsTyped(Next(s, run[0]), run[1..]);
    }
  }

  /** Some Unsubscribe is in closewait for the subscription. */
  ghost predicate Unsubscribing(s: State, sub: Sub) {
    exists t :: t in s.threads && InClose(s.threads[t], sub) && s.threads[t].next == Return
  }

  /** Stop does not wait for all deliveries, as its documentation says. A delivery that is
      still running after it can send exactly when its channel is open, and then an
      Unsubscribe is closing that channel. */
  lemma DeliveringAfterStop(run: seq<Action>, tid: Tid)
    requires IsRun(Init(), run) && Exec(Init(), run).stopped
    requires tid in Exec(Init(), run).threads && Exec(Init(), run).threads[tid].Delivering?
    ensures var s := Exec(Init(), run); var sub := s.threads[tid].sub;
      && sub in s.subs
      && (Enabled(s, SendEvent(tid)) <==> s.subs[sub].postC == Open)
      && (s.subs[sub].postC == Open ==> Unsubscribing(s, sub))
  {
    RunKeeps(Init(), run);
    RunKeepsTyped(Init(), run);
    var s := Exec(Init(), run);
    var sub := s.threads[tid].sub;
    assert ThreadOk(s, tid) && PostsTyped(s, s.threads[tid]);
    if s.subs[sub].postC == Open {
      StopClosesAll(run, sub);
      var t :| t in s.threads && InClose(s.threads[t], sub);
      assert StopsIdly(s, s.threads[t]);
    }
  }

  lemma StepFirst(s: State, a: Action, s': State, rest: seq<Action>)
    requires Enabled(s, a) && Next(s, a) == s' && IsRun(s', rest)
    ensures IsRun(s, [a] + rest) && Exec(s, [a] + rest) == Exec(s', rest)
  {
    assert ([a] + rest)[1..] == rest;
  }

  /** The subscription of the run below, with its readers. */
  function Witness(readers: set<Tid>): map<Sub, SubState> {
    map[0 := SubState(0, true, false, false, Open, {}, readers)]
  }

  lemma PostBegins()
    ensures var s1 := State(map[7 := [0]], false, {}, Witness({}), map[], false);
      var s2 := s1.(threads := map[1 := Posting([0], 0)]);
      && Enabled(Init(), Subscribe(0, [7], 0)) && Next(Init(), Subscribe(0, [7], 0)) == s1
      && Enabled(s1, BeginPost(1, 7, 0)) && Next(s1, BeginPost(1, 7, 0)) == s2
  {
    assert [7][1..] == [] && ListOf(map[], 7) + [0] == [0];
  }

  lemma UnsubscribeOvertakes()
    ensures var s2 := State(map[7 := [0]], false, {}, Witness({}), map[1 := Posting([0], 0)], false);
      var s3 := s2.(subs := Witness({1}), threads := map[1 := Delivering(0, [], 0)]);
      var s4 := s3.(lists := map[], threads := map[1 := Delivering(0, [], 0), 2 := Closing(0, Return)]);
      && Enabled(s2, BeginDeliver(1)) && Next(s2, BeginDeliver(1)) == s3
      && Enabled(s3, Unsubscribe(2, 0)) && Next(s3, Unsubscribe(2, 0)) == s4
  {
    assert [0][1..] == [] && {} + {1} == {1};
    assert Without([0], 0) == [];
  }

  lemma StopReturns()
    ensures var threads := map[1 := Delivering(0, [], 0), 2 := Closing(0, Return)];
      var s4 := State(map[], false, {}, Witness({1}), threads, false);
      var s5 := s4.(stopper := {3}, threads := s4.threads[3 := Stopping([])]);
      && Enabled(s4, BeginStop(3, [])) && Next(s4, BeginStop(3, [])) == s5
      && Enabled(s5, EndStop(3)) && Next(s5, EndStop(3)) == s4.(stopped := true)
  {
    var s4 := State(map[], false, {}, Witness({1}), map[1 := Delivering(0, [], 0), 2 := Closing(0, Return)], false);
    assert s4.threads[3 := Stopping([])] - {3} == s4.threads;
  }

  /** A run in which Stop returns while an event can still be sent. */
  lemma DeliveryOutlivesStop()
    ensures var run := [Subscribe(0, [7], 0), BeginPost(1, 7, 0), BeginDeliver(1), Unsubscribe(2, 0),
                        BeginStop(3, []), EndStop(3)];
      var s := State(map[], true, {}, Witness({1}), map[1 := Delivering(0, [], 0), 2 := Closing(0, Return)], false);
      IsRun(Init(), run) && Exec(Init(), run) == s && Enabled(s, SendEvent(1))
  {
    var s1 := State(map[7 := [0]], false, {}, Witness({}), map[], false);
    var s2 := s1.(threads := map[1 := Posting([0], 0)]);
    var s3 := s2.(subs := Witness({1}), threads := map[1 := Delivering(0, [], 0)]);
    var s4 := s3.(lists := map[], threads := map[1 := Delivering(0, [], 0), 2 := Closing(0, Return)]);
    var s5 := s4.(stopper := {3}, threads := s4.threads[3 := Stopping([])]);
    PostBegins();
    UnsubscribeOvertakes();
    StopReturns();
    StepFirst(s5, EndStop(3), s4.(stopped := true), []);
    StepFirst(s4, BeginStop(3, []), s5, [EndStop(3)]);
    StepFirst(s3, Unsubscribe(2, 0), s4, [BeginStop(3, []), EndStop(3)]);
    StepFirst(s2, BeginDeliver(1), s3, [Unsubscribe(2, 0), BeginStop(3, []), EndStop(3)]);
    StepFirst(s1, BeginPost(1, 7, 0), s2, [BeginDeliver(1), Unsubscribe(2, 0), BeginStop(3, []), EndStop(3)]);
    StepFirst(Init(), Subscribe(0, [7], 0), s1,
              [BeginPost(1, 7, 0), BeginDeliver(1), Unsubscribe(2, 0), BeginStop(3, []), EndStop(3)]);
  }
}
