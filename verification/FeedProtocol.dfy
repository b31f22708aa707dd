/** Subscribe, Unsubscribe and Send of event/feed.go as a state machine over all
    interleavings of their critical sections.

    The shared state is `inbox`, `sendCases` and the one-token channel `sendLock`. A call of
    remove has two parts: the look into the inbox under the mutex, and, when the channel is
    not there, a select between handing the channel to a running Send and taking sendLock.
 */
module FeedProtocol {
  import opened FeedCases
  import opened Options
  import opened Seqs

  /** Life of a subscription: `Removing` is an Unsubscribe that has passed the inbox. */
  datatype Phase = Live | Removing | Gone
  datatype Sub = Sub(ch: nat, phase: Phase)

  /** Who holds sendLock. A Send first holds it with the inbox not yet taken over. */
  datatype Holder<V> =
    | Free
    | SendEntered(value: V)
    | SendRunning(value: V, start: seq<Case<V>>, round: Round<V>)
    | RemoverIn(id: nat)

  /** A finished Send. */
  datatype Finished<V> = Finished(value: V, start: seq<Case<V>>, end: Round<V>)

  datatype State<V> = State(
    holder: Holder<V>,
    idle: seq<Case<V>>,
    inbox: seq<Case<V>>,
    subs: map<nat, Sub>,
    history: seq<Finished<V>>,
    panicked: bool)
  {
    /** The current f.sendCases. */
    function SendCases(): seq<Case<V>> {
      if holder.SendRunning? then holder.round.cases else idle
    }
  }

  datatype Action<V> =
    | Subscribe(id: nat, ch: nat)
    | LeaveInbox(id: nat)
    | PassInbox(id: nat)
    | EnterSend(value: V)
    | TakeInbox
    | Deliver(move: Move)
    | ReceiveRemoval(id: nat)
    | FinishSend
    | LockForRemoval(id: nat)
    | RemoveLocked

  function Init<V>(): State<V> {
    State(Free, [RemoveSub], [], map[], [], false)
  }

  predicate InPhase<V>(s: State<V>, id: nat, p: Phase) {
    id in s.subs && s.subs[id].phase == p
  }

  predicate ListsOk<V>(s: State<V>) {
    && WellFormed(s.SendCases()) && AllSubscribers(s.inbox)
    && (s.holder.SendRunning? ==> s.holder.round.active <= |s.holder.round.cases|)
  }

  predicate Enabled<V>(s: State<V>, a: Action<V>) {
    && !s.panicked
    && match a
       case Subscribe(id, ch) => id !in s.subs
       case LeaveInbox(id) => InPhase(s, id, Live) && Find(s.inbox, s.subs[id].ch) != -1
       case PassInbox(id) => InPhase(s, id, Live) && Find(s.inbox, s.subs[id].ch) == -1
       case EnterSend(_) => s.holder.Free?
       case TakeInbox => s.holder.SendEntered?
       case Deliver(move) => s.holder.SendRunning? && !move.Removal? && CanMove(s.holder.round, move)
       case ReceiveRemoval(id) => s.holder.SendRunning? && s.holder.round.active > 1 && InPhase(s, id, Removing)
       case FinishSend => s.holder.SendRunning? && s.holder.round.active == 1
       case LockForRemoval(id) => s.holder.Free? && InPhase(s, id, Removing)
       case RemoveLocked => s.holder.RemoverIn? && s.holder.id in s.subs
  }

  function SetPhase(subs: map<nat, Sub>, id: nat, p: Phase): map<nat, Sub>
    requires id in subs
  {
    subs[id := subs[id].(phase := p)]
  }

  /** One step. Deleting at index -1 panics in the source; here it raises `panicked`. */
  function Next<V>(s: State<V>, a: Action<V>): State<V>
    requires ListsOk(s) && Enabled(s, a)
  {
    match a
    case Subscribe(id, ch) =>
      s.(inbox := s.inbox + [Subscriber(id, ch, None)], subs := s.subs[id := Sub(ch, Live)])
    case LeaveInbox(id) =>
      s.(inbox := RemoveAt(s.inbox, Find(s.inbox, s.subs[id].ch)), subs := SetPhase(s.subs, id, Gone))
    case PassInbox(id) =>
      s.(subs := SetPhase(s.subs, id, Removing))
    case EnterSend(value) =>
      s.(holder := SendEntered(value))
    case TakeInbox =>
      var all := s.idle + s.inbox;
      assert WellFormed(all);
      var start := SetSend(all, Some(s.holder.value));
      s.(holder := SendRunning(s.holder.value, start, Begin(start)), inbox := [])
    case Deliver(move) =>
      s.(holder := s.holder.(round := Apply(s.holder.round, move, s.holder.value)))
    case ReceiveRemoval(id) =>
      var ch := s.subs[id].ch;
      if Find(s.holder.round.cases, ch) == -1 then s.(panicked := true)
      else s.(holder := s.holder.(round := Apply(s.holder.round, Removal(ch), s.holder.value)),
              subs := SetPhase(s.subs, id, Gone))
    case FinishSend =>
      s.(holder := Free, idle := SetSend(s.holder.round.cases, None),
         history := s.history + [Finished(s.holder.value, s.holder.start, s.holder.round)])
    case LockForRemoval(id) =>
      s.(holder := RemoverIn(id))
    case RemoveLocked =>
      var k := Find(s.idle, s.subs[s.holder.id].ch);
      if k == -1 then s.(panicked := true)
      else s.(holder := Free, idle := RemoveAt(s.idle, k), subs := SetPhase(s.subs, s.holder.id, Gone))
  }

  // ---------- Counting entries and subscriptions per channel ----------

  function One(b: bool): nat { if b then 1 else 0 }

  function Count<V>(cs: seq<Case<V>>, ch: nat): nat {
    if cs == [] then 0 else One(ForChannel(cs[0], ch)) + Count(cs[1..], ch)
  }

  lemma {:induction false} CountConcat<V>(a: seq<Case<V>>, b: seq<Case<V>>, ch: nat)
    ensures Count(a + b, ch) == Count(a, ch) + Count(b, ch)
  {
    if a == [] {
      assert a + b == b;
    } else {
      assert (a + b)[1..] == a[1..] + b;
      CountConcat(a[1..], b, ch);
    }
  }

  lemma CountSplit<V>(cs: seq<Case<V>>, k: nat, ch: nat)
    requires k < |cs|
    ensures Count(cs, ch) == Count(cs[..k], ch) + One(ForChannel(cs[k], ch)) + Count(cs[k + 1..], ch)
  {
    assert cs == cs[..k] + cs[k..];
    CountConcat(cs[..k], cs[k..], ch);
    assert cs[k..][1..] == cs[k + 1..];
  }

  lemma CountRemoveAt<V>(cs: seq<Case<V>>, k: nat, ch: nat)
    requires k < |cs|
    ensures Count(cs, ch) == Count(RemoveAt(cs, k), ch) + One(ForChannel(cs[k], ch))
  {
    CountSplit(cs, k, ch);
    CountConcat(cs[..k], cs[k + 1..], ch);
  }

  lemma CountUpdate<V>(cs: seq<Case<V>>, k: nat, c: Case<V>, ch: nat)
    requires k < |cs|
    ensures Count(cs[k := c], ch) + One(ForChannel(cs[k], ch)) == Count(cs, ch) + One(ForChannel(c, ch))
  {
    CountSplit(cs, k, ch);
    CountSplit(cs[k := c], k, ch);
    assert cs[k := c][..k] == cs[..k] && cs[k := c][k + 1..] == cs[k + 1..];
  }

  lemma CountSwap<V>(cs: seq<Case<V>>, i: nat, j: nat, ch: nat)
    requires i < |cs| && j < |cs|
    ensures Count(Swap(cs, i, j), ch) == Count(cs, ch)
  {
    CountUpdate(cs, i, cs[j], ch);
    CountUpdate(cs[i := cs[j]], j, cs[i], ch);
  }

  ghost predicate SameChannels<V>(a: seq<Case<V>>, b: seq<Case<V>>) {
    |a| == |b| && forall i :: 0 <= i < |a| ==>
      a[i].Subscriber? == b[i].Subscriber? && (a[i].Subscriber? ==> a[i].ch == b[i].ch && a[i].id == b[i].id)
  }

  lemma {:induction false} CountSameChannels<V>(a: seq<Case<V>>, b: seq<Case<V>>, ch: nat)
    requires SameChannels(a, b)
    ensures Count(a, ch) == Count(b, ch)
  {
    if a != [] {
      CountSameChannels(a[1..], b[1..], ch);
    }
  }

  lemma {:induction false} CountFind<V>(cs: seq<Case<V>>, ch: nat)
    ensures Find(cs, ch) == -1 <==> Count(cs, ch) == 0
  {
    if cs != [] {
      CountFind(cs[1..], ch);
    }
  }

  /** Subscriptions on the channel that have not been taken out of the feed yet. */
  ghost function Held(subs: map<nat, Sub>, ch: nat): set<nat> {
    set id | id in subs && subs[id].ch == ch && subs[id].phase != Gone
  }

  /** The Unsubscribe calls on the channel that are past the inbox. */
  ghost function Waiting(subs: map<nat, Sub>, ch: nat): set<nat> {
    set id | id in subs && subs[id].ch == ch && subs[id].phase == Removing
  }

  lemma SizesDifferAt(a: set<nat>, b: set<nat>, id: nat)
    requires a - {id} == b - {id}
    ensures |a| + One(id in b) == |b| + One(id in a)
  {
    assert |a| == |a - {id}| + One(id in a) by { assert a == if id in a then (a - {id}) + {id} else a - {id}; }
    assert |b| == |b - {id}| + One(id in b) by { assert b == if id in b then (b - {id}) + {id} else b - {id}; }
  }

  lemma PhaseCounts(subs: map<nat, Sub>, id: nat, p: Phase, ch: nat)
    requires id in subs
    ensures var subs' := SetPhase(subs, id, p); var mine := subs[id].ch == ch;
      && |Held(subs', ch)| + One(mine && subs[id].phase != Gone) == |Held(subs, ch)| + One(mine && p != Gone)
      && |Waiting(subs', ch)| + One(mine && subs[id].phase == Removing)
         == |Waiting(subs, ch)| + One(mine && p == Removing)
  {
    var subs' := SetPhase(subs, id, p);
    if subs[id].ch == ch {
      SizesDifferAt(Held(subs', ch), Held(subs, ch), id);
      SizesDifferAt(Waiting(subs', ch), Waiting(subs, ch), id);
    } else {
      assert Held(subs', ch) == Held(subs, ch);
      assert Waiting(subs', ch) == Waiting(subs, ch);
    }
  }

  lemma AddedCounts(subs: map<nat, Sub>, id: nat, ch: nat, c: nat)
    requires id !in subs
    ensures |Held(subs[id := Sub(ch, Live)], c)| == |Held(subs, c)| + One(c == ch)
    ensures |Waiting(subs[id := Sub(ch, Live)], c)| == |Waiting(subs, c)|
  {
    var subs' := subs[id := Sub(ch, Live)];
    assert Held(subs', c) == if c == ch then Held(subs, c) + {id} else Held(subs, c);
    assert Waiting(subs', c) == Waiting(subs, c);
  }

  // ---------- The invariant ----------

  /** The balance of one channel: its entries in the two lists are its subscriptions still
      in the feed, and the Unsubscribe calls past the inbox all have one in sendCases. */
  ghost predicate BalancedOn<V>(cases: seq<Case<V>>, inbox: seq<Case<V>>, subs: map<nat, Sub>, ch: nat) {
    && Count(inbox, ch) + Count(cases, ch) == |Held(subs, ch)|
    && |Waiting(subs, ch)| <= Count(cases, ch)
  }

  ghost predicate Balanced<V>(cases: seq<Case<V>>, inbox: seq<Case<V>>, subs: map<nat, Sub>) {
    forall ch :: BalancedOn(cases, inbox, subs, ch)
  }

  ghost predicate Labelled<V(!new)>(cases: seq<Case<V>>, inbox: seq<Case<V>>, subs: map<nat, Sub>) {
    && WellFormed(cases) && AllSubscribers(inbox)
    && DistinctIds(cases + inbox)
    && (forall i :: 1 <= i < |cases| ==> cases[i].id in subs)
    && (forall i :: 0 <= i < |inbox| ==> inbox[i].id in subs)
  }

  /** A Send that started from `start` and has come as far as `r`. */
  ghost predicate RoundOk<V(!new)>(value: V, start: seq<Case<V>>, r: Round<V>) {
    WellFormed(start) && Loaded(start, value) && DistinctIds(start) && RoundInv(start, r)
  }

  ghost predicate HolderOk<V(!new)>(s: State<V>) {
    match s.holder
    case Free => true
    case SendEntered(_) => true
    case SendRunning(value, start, round) => RoundOk(value, start, round)
    case RemoverIn(id) => InPhase(s, id, Removing)
  }

  ghost predicate HistoryOk<V(!new)>(history: seq<Finished<V>>) {
    forall i :: 0 <= i < |history| ==>
      RoundOk(history[i].value, history[i].start, history[i].end) && history[i].end.active == 1
  }

  ghost predicate Inv<V(!new)>(s: State<V>) {
    && !s.panicked
    && Labelled(s.SendCases(), s.inbox, s.subs)
    && Balanced(s.SendCases(), s.inbox, s.subs)
    && HolderOk(s)
    && HistoryOk(s.history)
  }

  lemma InitInv<V(!new)>()
    ensures Inv(Init<V>())
  {
    forall ch ensures BalancedOn(Init<V>().idle, [], map[], ch) {
      assert Held(map[], ch) == {} && Waiting(map[], ch) == {};
    }
  }

  // Each step, list by list.

  lemma SubscribeBalanced<V(!new)>(cases: seq<Case<V>>, inbox: seq<Case<V>>, subs: map<nat, Sub>, id: nat, ch: nat)
    requires Balanced(cases, inbox, subs) && Labelled(cases, inbox, subs) && id !in subs
    ensures Balanced(cases, inbox + [Subscriber(id, ch, None)], subs[id := Sub(ch, Live)])
    ensures Labelled(cases, inbox + [Subscriber(id, ch, None)], subs[id := Sub(ch, Live)])
  {
    var c: Case<V> := Subscriber(id, ch, None);
    var inbox', subs' := inbox + [c], subs[id := Sub(ch, Live)];
    forall x ensures BalancedOn(cases, inbox', subs', x) {
      assert BalancedOn(cases, inbox, subs, x);
      CountConcat(inbox, [c], x);
      AddedCounts(subs, id, ch, x);
    }
    assert cases + (inbox + [c]) == (cases + inbox) + [c];
    assert forall i :: 1 <= i < |cases + inbox| ==> (cases + inbox)[i].id != id;
  }

  lemma LeaveInboxBalanced<V(!new)>(cases: seq<Case<V>>, inbox: seq<Case<V>>, subs: map<nat, Sub>, id: nat)
    requires Balanced(cases, inbox, subs) && Labelled(cases, inbox, subs)
    requires id in subs && subs[id].phase == Live && Find(inbox, subs[id].ch) != -1
    ensures Balanced(cases, RemoveAt(inbox, Find(inbox, subs[id].ch)), SetPhase(subs, id, Gone))
    ensures Labelled(cases, RemoveAt(inbox, Find(inbox, subs[id].ch)), SetPhase(subs, id, Gone))
  {
    var k := Find(inbox, subs[id].ch);
    forall x ensures BalancedOn(cases, RemoveAt(inbox, k), SetPhase(subs, id, Gone), x) {
      assert BalancedOn(cases, inbox, subs, x);
      CountRemoveAt(inbox, k, x);
      PhaseCounts(subs, id, Gone, x);
    }
    assert cases + RemoveAt(inbox, k) == RemoveAt(cases + inbox, |cases| + k);
  }

  lemma WaitingAtMostHeld(subs: map<nat, Sub>, ch: nat)
    ensures |Waiting(subs, ch)| <= |Held(subs, ch)|
  {
    assert Held(subs, ch) == Waiting(subs, ch) + (Held(subs, ch) - Waiting(subs, ch));
  }

  /** With no entry left in the inbox, all entries of the channel are in sendCases: that is
      why the Unsubscribe that goes on to wait will find one there. */
  lemma PassInboxBalanced<V(!new)>(cases: seq<Case<V>>, inbox: seq<Case<V>>, subs: map<nat, Sub>, id: nat)
    requires Balanced(cases, inbox, subs)
    requires id in subs && subs[id].phase == Live && Find(inbox, subs[id].ch) == -1
    ensures Balanced(cases, inbox, SetPhase(subs, id, Removing))
  {
    var subs' := SetPhase(subs, id, Removing);
    forall x ensures BalancedOn(cases, inbox, subs', x) {
      assert BalancedOn(cases, inbox, subs, x);
      PhaseCounts(subs, id, Removing, x);
      if x == subs[id].ch {
        CountFind(inbox, x);
        assert Waiting(subs', x) <= Held(subs', x);
        WaitingAtMostHeld(subs', x);
      }
    }
  }

  lemma WaitingHasEntry<V(!new)>(cases: seq<Case<V>>, inbox: seq<Case<V>>, subs: map<nat, Sub>, id: nat)
    requires Balanced(cases, inbox, subs) && id in subs && subs[id].phase == Removing
    ensures Find(cases, subs[id].ch) != -1
  {
    assert BalancedOn(cases, inbox, subs, subs[id].ch);
    assert id in Waiting(subs, subs[id].ch);
    CountFind(cases, subs[id].ch);
  }

  lemma RemoveBalanced<V(!new)>(cases: seq<Case<V>>, inbox: seq<Case<V>>, subs: map<nat, Sub>, id: nat)
    requires Balanced(cases, inbox, subs) && Labelled(cases, inbox, subs)
    requires id in subs && subs[id].phase == Removing && Find(cases, subs[id].ch) != -1
    ensures Balanced(RemoveAt(cases, Find(cases, subs[id].ch)), inbox, SetPhase(subs, id, Gone))
    ensures Labelled(RemoveAt(cases, Find(cases, subs[id].ch)), inbox, SetPhase(subs, id, Gone))
  {
    var k := Find(cases, subs[id].ch);
    forall x ensures BalancedOn(RemoveAt(cases, k), inbox, SetPhase(subs, id, Gone), x) {
      assert BalancedOn(cases, inbox, subs, x);
      CountRemoveAt(cases, k, x);
      PhaseCounts(subs, id, Gone, x);
    }
    assert RemoveAt(cases, k) + inbox == RemoveAt(cases + inbox, k);
  }

  lemma TakeInboxBalanced<V(!new)>(cases: seq<Case<V>>, inbox: seq<Case<V>>, subs: map<nat, Sub>, start: seq<Case<V>>)
    requires Balanced(cases, inbox, subs) && Labelled(cases, inbox, subs)
    requires SameChannels(start, cases + inbox) && WellFormed(start)
    ensures Balanced(start, [], subs) && Labelled(start, [], subs) && DistinctIds(start)
  {
    forall x ensures BalancedOn(start, [], subs, x) {
      assert BalancedOn(cases, inbox, subs, x);
      CountConcat(cases, inbox, x);
      CountSameChannels(start, cases + inbox, x);
    }
    assert start + [] == start;
    assert forall i :: 1 <= i < |start| ==> start[i].id in subs;
  }

  lemma SwapBalanced<V(!new)>(cases: seq<Case<V>>, inbox: seq<Case<V>>, subs: map<nat, Sub>, i: nat, j: nat)
    requires Balanced(cases, inbox, subs) && Labelled(cases, inbox, subs)
    requires 1 <= i < |cases| && 1 <= j < |cases|
    ensures Balanced(Swap(cases, i, j), inbox, subs) && Labelled(Swap(cases, i, j), inbox, subs)
  {
    forall x ensures BalancedOn(Swap(cases, i, j), inbox, subs, x) {
      assert BalancedOn(cases, inbox, subs, x);
      CountSwap(cases, i, j, x);
    }
    assert Swap(cases, i, j) + inbox == Swap(cases + inbox, i, j);
  }

  lemma RelabelBalanced<V(!new)>(cases: seq<Case<V>>, cases': seq<Case<V>>, inbox: seq<Case<V>>, subs: map<nat, Sub>)
    requires Balanced(cases, inbox, subs) && Labelled(cases, inbox, subs)
    requires SameChannels(cases, cases') && WellFormed(cases')
    ensures Balanced(cases', inbox, subs) && Labelled(cases', inbox, subs)
  {
    forall x ensures BalancedOn(cases', inbox, subs, x) {
      assert BalancedOn(cases, inbox, subs, x);
      CountSameChannels(cases, cases', x);
    }
    assert SameChannels(cases + inbox, cases' + inbox);
  }

  lemma TakeInboxStep<V(!new)>(s: State<V>)
    requires Inv(s) && Enabled(s, TakeInbox)
    ensures Inv(Next(s, TakeInbox))
  {
    var s' := Next(s, TakeInbox);
    TakeInboxBalanced(s.idle, s.inbox, s.subs, s'.holder.start);
    BeginInv(s'.holder.start);
  }

  lemma DeliverStep<V(!new)>(s: State<V>, move: Move)
    requires Inv(s) && Enabled(s, Deliver(move))
    ensures Inv(Next(s, Deliver(move)))
  {
    var r := s.holder.round;
    MovePreserves(s.holder.start, r, move, s.holder.value);
    SwapBalanced(r.cases, s.inbox, s.subs, move.i, r.active - 1);
  }

  lemma ReceiveStep<V(!new)>(s: State<V>, id: nat)
    requires Inv(s) && Enabled(s, ReceiveRemoval(id))
    ensures Inv(Next(s, ReceiveRemoval(id)))
  {
    var r := s.holder.round;
    WaitingHasEntry(r.cases, s.inbox, s.subs, id);
    MovePreserves(s.holder.start, r, Removal(s.subs[id].ch), s.holder.value);
    RemoveBalanced(r.cases, s.inbox, s.subs, id);
  }

  /** Every step of every interleaving keeps the invariant; in particular no delete ever
      runs with index -1. */
  lemma StepPreserves<V(!new)>(s: State<V>, a: Action<V>)
    requires Inv(s) && Enabled(s, a)
    ensures Inv(Next(s, a))
  {
    match a
    case Subscribe(id, ch) => SubscribeBalanced(s.SendCases(), s.inbox, s.subs, id, ch);
    case LeaveInbox(id) => LeaveInboxBalanced(s.SendCases(), s.inbox, s.subs, id);
    case PassInbox(id) => PassInboxBalanced(s.SendCases(), s.inbox, s.subs, id);
    case EnterSend(_) =>
    case TakeInbox => TakeInboxStep(s);
    case Deliver(move) => DeliverStep(s, move);
    case ReceiveRemoval(id) => ReceiveStep(s, id);
    case FinishSend => RelabelBalanced(s.SendCases(), Next(s, a).idle, s.inbox, s.subs);
    case LockForRemoval(id) =>
    case RemoveLocked =>
      WaitingHasEntry(s.idle, s.inbox, s.subs, s.holder.id);
      RemoveBalanced(s.idle, s.inbox, s.subs, s.holder.id);
  }

  // ---------- Runs ----------

  ghost predicate IsRun<V(!new)>(s: State<V>, run: seq<Action<V>>)
    decreases |run|
  {
    run == [] || (ListsOk(s) && Enabled(s, run[0]) && IsRun(Next(s, run[0]), run[1..]))
  }

  ghost function Exec<V(!new)>(s: State<V>, run: seq<Action<V>>): State<V>
    requires IsRun(s, run)
    decreases |run|
  {
    if run == [] then s else Exec(Next(s, run[0]), run[1..])
  }

  lemma {:induction false} RunPreserves<V(!new)>(s: State<V>, run: seq<Action<V>>)
    requires Inv(s) && IsRun(s, run)
    ensures Inv(Exec(s, run))
    decreases |run|
  {
    if run != [] {
      StepPreserves(s, run[0]);
      RunPreserves(Next(s, run[0]), run[1..]);
    }
  }

  /** Conservation over all interleavings: entries equal subscriptions, channel by channel,
      and nothing panics. */
  lemma FeedIsBalanced<V(!new)>(run: seq<Action<V>>, ch: nat)
    requires IsRun(Init<V>(), run)
    ensures var s := Exec(Init<V>(), run);
      && !s.panicked
      && Count(s.inbox, ch) + Count(s.SendCases(), ch) == |Held(s.subs, ch)|
  {
    InitInv<V>();
    RunPreserves(Init<V>(), run);
    var s := Exec(Init<V>(), run);
    assert BalancedOn(s.SendCases(), s.inbox, s.subs, ch);
  }

  /** An Unsubscribe past the inbox always has an entry to delete, whoever deletes it. */
  lemma RemovalAlwaysFound<V(!new)>(run: seq<Action<V>>, id: nat)
    requires IsRun(Init<V>(), run) && InPhase(Exec(Init<V>(), run), id, Removing)
    ensures var s := Exec(Init<V>(), run); Find(s.SendCases(), s.subs[id].ch) >= 1
  {
    InitInv<V>();
    RunPreserves(Init<V>(), run);
    var s := Exec(Init<V>(), run);
    WaitingHasEntry(s.SendCases(), s.inbox, s.subs, id);
  }

  /** The step by which the holder of sendLock, or the waiting Unsubscribe itself, goes on. */
  function Unblock<V>(s: State<V>, id: nat): Action<V> {
    match s.holder
    case Free => LockForRemoval(id)
    case SendEntered(_) => TakeInbox
    case SendRunning(_, _, round) => if round.active == 1 then FinishSend else ReceiveRemoval(id)
    case RemoverIn(_) => RemoveLocked
  }

  /** No Unsubscribe past the inbox is ever deadlocked. */
  lemma RemovalNeverStuck<V(!new)>(run: seq<Action<V>>, id: nat)
    requires IsRun(Init<V>(), run) && InPhase(Exec(Init<V>(), run), id, Removing)
    ensures Enabled(Exec(Init<V>(), run), Unblock(Exec(Init<V>(), run), id))
  {
    InitInv<V>();
    RunPreserves(Init<V>(), run);
  }

  /** In every finished Send of every run, each entry present at its start had the value
      exactly once, unless it was removed while its turn was still to come. */
  lemma EverySendExactlyOnce<V(!new)>(run: seq<Action<V>>, i: nat, c: Case<V>)
    requires IsRun(Init<V>(), run) && i < |Exec(Init<V>(), run).history|
    requires |Exec(Init<V>(), run).history[i].start| >= 1 && c in Exec(Init<V>(), run).history[i].start[1..]
    ensures var f := Exec(Init<V>(), run).history[i];
      && multiset(f.end.delivered)[c] + multiset(f.end.dropped)[c] == 1
      && c.Subscriber? && c.send == Some(f.value)
  {
    InitInv<V>();
    RunPreserves(Init<V>(), run);
    var f := Exec(Init<V>(), run).history[i];
    assert RoundOk(f.value, f.start, f.end);
    FinishedOnce(f.start, f.end, c);
  }

  // ---------- Nothing is removed unasked ----------

  ghost function Left(subs: map<nat, Sub>, ch: nat): set<nat> {
    set id | id in subs && subs[id].ch == ch && subs[id].phase == Gone
  }

  /** The entries of a channel that a Send has taken out of the list. */
  function TakenBy<V>(r: Round<V>, ch: nat): nat { Count(r.dropped, ch) + Count(r.retired, ch) }

  function TakenIn<V>(history: seq<Finished<V>>, ch: nat): nat {
    if history == [] then 0
    else TakenIn(history[..|history| - 1], ch) + TakenBy(history[|history| - 1].end, ch)
  }

  function Taken<V>(s: State<V>, ch: nat): nat {
    TakenIn(s.history, ch) + if s.holder.SendRunning? then TakenBy(s.holder.round, ch) else 0
  }

  /** All Sends together have taken out no more entries of a channel than subscriptions on
      it have ended. */
  ghost predicate Asked<V>(s: State<V>, ch: nat) { Taken(s, ch) <= |Left(s.subs, ch)| }

  lemma LeftCounts(subs: map<nat, Sub>, id: nat, p: Phase, ch: nat)
    requires id in subs && subs[id].phase != Gone
    ensures |Left(SetPhase(subs, id, p), ch)| == |Left(subs, ch)| + One(subs[id].ch == ch && p == Gone)
  {
    var subs' := SetPhase(subs, id, p);
    if subs[id].ch == ch {
      SizesDifferAt(Left(subs', ch), Left(subs, ch), id);
    } else {
      assert Left(subs', ch) == Left(subs, ch);
    }
  }

  lemma TakenNext<V>(r: Round<V>, removed: nat, value: V, ch: nat)
    requires WellFormed(r.cases) && CanMove(r, Removal(removed))
    ensures TakenBy(Apply(r, Removal(removed), value), ch) == TakenBy(r, ch) + One(removed == ch)
  {
    var c := r.cases[Find(r.cases, removed)];
    CountConcat(r.dropped, [c], ch);
    CountConcat(r.retired, [c], ch);
    assert Count([c], ch) == One(removed == ch) by { assert [c][1..] == []; }
  }

  lemma TakenFinished<V>(history: seq<Finished<V>>, f: Finished<V>, ch: nat)
    ensures TakenIn(history + [f], ch) == TakenIn(history, ch) + TakenBy(f.end, ch)
  {
    assert (history + [f])[..|history|] == history;
  }

  lemma ReceiveAsked<V(!new)>(s: State<V>, id: nat, ch: nat)
    requires Inv(s) && Enabled(s, ReceiveRemoval(id)) && Asked(s, ch)
    ensures Asked(Next(s, ReceiveRemoval(id)), ch)
  {
    WaitingHasEntry(s.holder.round.cases, s.inbox, s.subs, id);
    TakenNext(s.holder.round, s.subs[id].ch, s.holder.value, ch);
    LeftCounts(s.subs, id, Gone, ch);
  }

  lemma StepAsked<V(!new)>(s: State<V>, a: Action<V>, ch: nat)
    requires Inv(s) && Enabled(s, a) && Asked(s, ch)
    ensures Asked(Next(s, a), ch)
  {
    match a
    case Subscribe(id, c) => assert Left(s.subs[id := Sub(c, Live)], ch) == Left(s.subs, ch);
    case LeaveInbox(id) => LeftCounts(s.subs, id, Gone, ch);
    case PassInbox(id) => LeftCounts(s.subs, id, Removing, ch);
    case EnterSend(_) =>
    case TakeInbox =>
    case Deliver(move) =>
    case ReceiveRemoval(id) => ReceiveAsked(s, id, ch);
    case FinishSend =>
      TakenFinished(s.history, Finished(s.holder.value, s.holder.start, s.holder.round), ch);
    case LockForRemoval(id) =>
    case RemoveLocked => LeftCounts(s.subs, s.holder.id, Gone, ch);
  }

  lemma {:induction false} RunAsked<V(!new)>(s: State<V>, run: seq<Action<V>>, ch: nat)
    requires Inv(s) && IsRun(s, run) && Asked(s, ch)
    ensures Asked(Exec(s, run), ch)
    decreases |run|
  {
    if run != [] {
      StepPreserves(s, run[0]);
      StepAsked(s, run[0], ch);
      RunAsked(Next(s, run[0]), run[1..], ch);
    }
  }

  /** In every run the Sends together take out at most one entry of a channel for each of
      its subscriptions that has ended. */
  lemma RemovedOnlyWhenAsked<V(!new)>(run: seq<Action<V>>, ch: nat)
    requires IsRun(Init<V>(), run)
    ensures var s := Exec(Init<V>(), run);
      Taken(s, ch) <= |set id | id in s.subs && s.subs[id].ch == ch && s.subs[id].phase == Gone|
  {
    InitInv<V>();
    assert Left(map[], ch) == {};
    RunAsked(Init<V>(), run, ch);
    var s := Exec(Init<V>(), run);
    assert Left(s.subs, ch) == set id | id in s.subs && s.subs[id].ch == ch && s.subs[id].phase == Gone;
  }

  lemma {:induction false} TakenIsAtLeast<V>(history: seq<Finished<V>>, i: nat, ch: nat)
    requires i < |history|
    ensures TakenBy(history[i].end, ch) <= TakenIn(history, ch)
  {
    if i < |history| - 1 {
      TakenIsAtLeast(history[..|history| - 1], i, ch);
    }
  }

  lemma {:induction false} CountedIfThere<V(!new)>(cs: seq<Case<V>>, c: Case<V>)
    requires c in cs && c.Subscriber?
    ensures Count(cs, c.ch) > 0
  {
    if cs[0] != c {
      CountedIfThere(cs[1..], c);
    }
  }

  /** A subscription on a channel from which nobody has unsubscribed gets the value of every
      finished Send it was listed for, once. */
  lemma NobodyLosesUnasked<V(!new)>(run: seq<Action<V>>, i: nat, c: Case<V>)
    requires IsRun(Init<V>(), run) && i < |Exec(Init<V>(), run).history|
    requires |Exec(Init<V>(), run).history[i].start| >= 1 && c in Exec(Init<V>(), run).history[i].start[1..]
    requires c.Subscriber?
    requires forall id :: InPhase(Exec(Init<V>(), run), id, Gone) ==> Exec(Init<V>(), run).subs[id].ch != c.ch
    ensures var f := Exec(Init<V>(), run).history[i];
      multiset(f.end.delivered)[c] == 1 && c.send == Some(f.value)
  {
    EverySendExactlyOnce(run, i, c);
    RemovedOnlyWhenAsked(run, c.ch);
    var s := Exec(Init<V>(), run);
    assert Left(s.subs, c.ch) == {} by {
      assert forall id :: id in Left(s.subs, c.ch) ==> InPhase(s, id, Gone);
    }
    TakenIsAtLeast(s.history, i, c.ch);
    if c in s.history[i].end.dropped {
      CountedIfThere(s.history[i].end.dropped, c);
    }
  }

  // ---------- Whom a Send reaches ----------

  lemma {:induction false} CountPermuted<V(!new)>(a: seq<Case<V>>, b: seq<Case<V>>, ch: nat)
    requires multiset(a) == multiset(b)
    ensures Count(a, ch) == Count(b, ch)
    decreases |a|
  {
    SameLength(a, b);
    if a != [] {
      assert a[0] in multiset(b);
      var k :| 0 <= k < |b| && b[k] == a[0];
      ElementsWithout(a, 0);
      ElementsWithout(b, k);
      Cancel(multiset(RemoveAt(a, 0)), multiset(RemoveAt(b, k)), a[0]);
      CountRemoveAt(a, 0, ch);
      CountRemoveAt(b, k, ch);
      CountPermuted(RemoveAt(a, 0), RemoveAt(b, k), ch);
    }
  }

  /** A finished round met every entry of its start. */
  lemma CountMet<V(!new)>(value: V, start: seq<Case<V>>, end: Round<V>, ch: nat)
    requires RoundOk(value, start, end) && end.active == 1
    ensures Count(end.delivered, ch) + Count(end.dropped, ch) == Count(start, ch)
  {
    assert end.cases[1..1] == [];
    assert multiset(end.delivered + end.dropped) == multiset(start[1..]);
    CountPermuted(end.delivered + end.dropped, start[1..], ch);
    CountConcat(end.delivered, end.dropped, ch);
  }

  /** What a step does to one subscription. */
  lemma StepSub<V(!new)>(s: State<V>, a: Action<V>, id: nat)
    requires Inv(s) && Enabled(s, a)
    ensures id in Next(s, a).subs <==> id in s.subs || (a.Subscribe? && a.id == id)
    ensures a.Subscribe? ==> Next(s, a).subs[a.id] == Sub(a.ch, Live)
    ensures id in s.subs ==> Next(s, a).subs[id].ch == s.subs[id].ch
    ensures id in s.subs && s.subs[id].phase == Live ==>
      (Next(s, a).subs[id].phase == Live <==> a != LeaveInbox(id) && a != PassInbox(id))
    ensures id in s.subs && s.subs[id].phase != Live ==> Next(s, a).subs[id].phase != Live
  {
  }

  /** The subscriptions of a feed are those that Subscribe made, on the channel given there,
      and one is live until its Unsubscribe looks into the inbox. */
  lemma {:induction false} SubsOfRun<V(!new)>(s: State<V>, run: seq<Action<V>>, id: nat)
    requires Inv(s) && IsRun(s, run)
    ensures var subs := Exec(s, run).subs;
      && (id in subs <==> id in s.subs || exists a :: a in run && a.Subscribe? && a.id == id)
      && (id in s.subs ==> subs[id].ch == s.subs[id].ch)
      && (forall a :: a in run && a.Subscribe? && a.id == id ==> subs[id].ch == a.ch)
      && (InPhase(Exec(s, run), id, Live) <==>
            (id in subs && (id in s.subs ==> s.subs[id].phase == Live)
             && LeaveInbox(id) !in run && PassInbox(id) !in run))
    decreases |run|
  {
    if run != [] {
      StepPreserves(s, run[0]);
      StepSub(s, run[0], id);
      SubsOfRun(Next(s, run[0]), run[1..], id);
      assert forall a :: a in run <==> a == run[0] || a in run[1..];
    }
  }

  /** Whoever subscribed and never began to unsubscribe is in the feed. */
  lemma SubscribedIsHeld<V(!new)>(run: seq<Action<V>>, id: nat, ch: nat)
    requires IsRun(Init<V>(), run) && Subscribe(id, ch) in run && LeaveInbox(id) !in run && PassInbox(id) !in run
    ensures id in Held(Exec(Init<V>(), run).subs, ch)
  {
    InitInv<V>();
    SubsOfRun(Init<V>(), run, id);
  }

  /** The Send that takes over the inbox begins with an entry for every subscription that is
      still in the feed, also for those made since the last Send. */
  lemma SendTakesAll<V(!new)>(s: State<V>, ch: nat)
    requires Inv(s) && Enabled(s, TakeInbox)
    ensures var s' := Next(s, TakeInbox);
      && s'.holder.SendRunning? && s'.holder.value == s.holder.value && s'.inbox == [] && s'.subs == s.subs
      && Count(s'.holder.start, ch) == |Held(s.subs, ch)|
  {
    var s' := Next(s, TakeInbox);
    TakeInboxStep(s);
    assert BalancedOn(s'.SendCases(), s'.inbox, s'.subs, ch);
    assert Count(s'.inbox, ch) == 0;
  }

  /** A running Send keeps its value and its start until it finishes. */
  lemma {:induction false} SendGoesOn<V(!new)>(s: State<V>, run: seq<Action<V>>)
    requires IsRun(s, run) && s.holder.SendRunning? && FinishSend !in run && !Exec(s, run).panicked
    ensures var h := Exec(s, run).holder; h.SendRunning? && h.value == s.holder.value && h.start == s.holder.start
    decreases |run|
  {
    if run != [] {
      SendGoesOn(Next(s, run[0]), run[1..]);
    }
  }

  lemma DeliveredLoaded<V(!new)>(value: V, start: seq<Case<V>>, r: Round<V>)
    requires RoundOk(value, start, r)
    ensures forall c :: c in r.delivered ==> c.Subscriber? && c.send == Some(value)
  {
    forall c | c in r.delivered ensures c.Subscriber? && c.send == Some(value) {
      assert c in multiset(r.delivered);
      assert c in multiset(start[1..]);
      var i :| 1 <= i < |start| && start[i] == c;
    }
  }

  /** From the step that takes over the inbox to the end of the Send: on every channel the
      value was delivered to as many entries as there were subscriptions in the feed at that
      step, less those removed before their turn. */
  lemma SendReachesAll<V(!new)>(before: seq<Action<V>>, during: seq<Action<V>>, ch: nat)
    requires IsRun(Init<V>(), before) && ListsOk(Exec(Init<V>(), before)) && Enabled(Exec(Init<V>(), before), TakeInbox)
    requires IsRun(Next(Exec(Init<V>(), before), TakeInbox), during) && FinishSend !in during
    requires var s := Exec(Next(Exec(Init<V>(), before), TakeInbox), during); ListsOk(s) && Enabled(s, FinishSend)
    ensures var s := Exec(Init<V>(), before);
      var history := Next(Exec(Next(s, TakeInbox), during), FinishSend).history;
      && history != []
      && var f := history[|history| - 1];
      && f.value == s.holder.value
      && Count(f.end.delivered, ch) + Count(f.end.dropped, ch) == |Held(s.subs, ch)|
      && forall c :: c in f.end.delivered ==> c.Subscriber? && c.send == Some(s.holder.value)
  {
    var s := Exec(Init<V>(), before);
    InitInv<V>();
    RunPreserves(Init<V>(), before);
    SendTakesAll(s, ch);
    StepPreserves(s, TakeInbox);
    RunPreserves(Next(s, TakeInbox), during);
    SendGoesOn(Next(s, TakeInbox), during);
    var h := Exec(Next(s, TakeInbox), during).holder;
    CountMet(h.value, h.start, h.round, ch);
    DeliveredLoaded(h.value, h.start, h.round);
  }
}
