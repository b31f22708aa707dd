/** The case lists of event/feed.go and the moves of one Send round over them.

    A round works on one list. Its first `active` entries are the slice that Send calls
    `cases`; the entries behind them have had the value already. Slot 0 is the receive
    case for the removeSub channel.
 */
module FeedCases {
  import opened Options
  import opened Seqs

  /** A select case. `id` names the Subscribe call that made the entry; the program never
      reads it, it only lets the properties speak of single subscriptions. `send` is the
      value parked in the case while a Send is in progress. */
  datatype Case<+V> = RemoveSub | Subscriber(id: nat, ch: nat, send: Option<V>)

  predicate ForChannel<V>(c: Case<V>, ch: nat) {
    c.Subscriber? && c.ch == ch
  }

  /** The first entry for the channel, or -1 (caseList.find). */
  function Find<V>(cs: seq<Case<V>>, ch: nat): (r: int)
    ensures -1 <= r < |cs|
    ensures r >= 0 ==> ForChannel(cs[r], ch) && forall k :: 0 <= k < r ==> !ForChannel(cs[k], ch)
    ensures r == -1 ==> forall k :: 0 <= k < |cs| ==> !ForChannel(cs[k], ch)
  {
    if cs == [] then -1
    else if ForChannel(cs[0], ch) then 0
    else
      var r := Find(cs[1..], ch);
      assert forall k :: 0 < k < |cs| ==> cs[k] == cs[1..][k - 1];
      if r == -1 then -1 else r + 1
  }

  predicate WellFormed<V>(cs: seq<Case<V>>) {
    |cs| >= 1 && cs[0].RemoveSub? && forall i :: 1 <= i < |cs| ==> cs[i].Subscriber?
  }

  predicate AllSubscribers<V>(cs: seq<Case<V>>) {
    forall i :: 0 <= i < |cs| ==> cs[i].Subscriber?
  }

  /** Parks `v` in every subscriber case, or clears them all. */
  function SetSend<V>(cs: seq<Case<V>>, v: Option<V>): (r: seq<Case<V>>)
    requires WellFormed(cs)
    ensures |r| == |cs| && WellFormed(r)
  {
    seq(|cs|, i requires 0 <= i < |cs| => if i == 0 then cs[0] else cs[i].(send := v))
  }

  /** A Send in progress. The last three fields record what happened to each entry:
      `delivered` holds each case as it was sent, `dropped` the cases removed before they
      had the value, `retired` those removed after. */
  datatype Round<V> = Round(
    cases: seq<Case<V>>,
    active: nat,
    delivered: seq<Case<V>>,
    dropped: seq<Case<V>>,
    retired: seq<Case<V>>)

  function Begin<V>(cases: seq<Case<V>>): Round<V> {
    Round(cases, |cases|, [], [], [])
  }

  /** What can happen next: the fast path or the select delivers case i, or the select
      receives a channel on removeSub. */
  datatype Move = TrySend(i: nat) | Selected(i: nat) | Removal(ch: nat)

  predicate CanMove<V>(r: Round<V>, m: Move) {
    && r.active <= |r.cases|
    && match m
       case TrySend(i) => 1 <= i < r.active
       case Selected(i) => 1 <= i < r.active
       case Removal(ch) => r.active > 1 && Find(r.cases, ch) >= 0
  }

  /** One move; `value` is the argument of Send. */
  function Apply<V>(r: Round<V>, m: Move, value: V): Round<V>
    requires WellFormed(r.cases) && CanMove(r, m)
  {
    match m
    case TrySend(i) =>
      r.(cases := Swap(r.cases, i, r.active - 1), active := r.active - 1,
         delivered := r.delivered + [r.cases[i].(send := Some(value))])
    case Selected(i) =>
      r.(cases := Swap(r.cases, i, r.active - 1), active := r.active - 1,
         delivered := r.delivered + [r.cases[i]])
    case Removal(ch) =>
      var k := Find(r.cases, ch);
      if k < r.active
      then r.(cases := RemoveAt(r.cases, k), active := r.active - 1, dropped := r.dropped + [r.cases[k]])
      else r.(cases := RemoveAt(r.cases, k), retired := r.retired + [r.cases[k]])
  }

  /** The cases still waiting for the value, and those that had it. */
  ghost function Active<V(!new)>(cs: seq<Case<V>>, n: nat): multiset<Case<V>>
    requires 1 <= n <= |cs|
  {
    multiset(cs[1..n])
  }

  ghost function Spent<V(!new)>(cs: seq<Case<V>>, n: nat): multiset<Case<V>>
    requires n <= |cs|
  {
    multiset(cs[n..])
  }

  /** The bookkeeping that every round keeps: each entry of `start` is still active, has
      been delivered, or was dropped; the entries behind the active prefix are exactly the
      delivered ones that have not been retired since. */
  ghost predicate RoundInv<V(!new)>(start: seq<Case<V>>, r: Round<V>) {
    && WellFormed(r.cases)
    && 1 <= r.active <= |r.cases|
    && |start| >= 1
    && Active(r.cases, r.active) + multiset(r.delivered) + multiset(r.dropped) == multiset(start[1..])
    && Spent(r.cases, r.active) + multiset(r.retired) == multiset(r.delivered)
  }

  ghost predicate Loaded<V(!new)>(start: seq<Case<V>>, value: V) {
    forall i :: 1 <= i < |start| ==> start[i].Subscriber? && start[i].send == Some(value)
  }

  lemma BeginInv<V(!new)>(start: seq<Case<V>>)
    requires WellFormed(start)
    ensures RoundInv(start, Begin(start))
  {
    assert start[1..|start|] == start[1..];
  }

  lemma ActiveIsLoaded<V(!new)>(start: seq<Case<V>>, r: Round<V>, value: V, i: nat)
    requires RoundInv(start, r) && Loaded(start, value) && 1 <= i < r.active
    ensures r.cases[i].send == Some(value)
  {
    assert r.cases[i] == r.cases[1..r.active][i - 1];
    assert r.cases[i] in multiset(r.cases[1..r.active]);
    assert r.cases[i] in multiset(start[1..]);
    assert r.cases[i] in start[1..];
  }

  lemma BagsAfterDeliver<V(!new)>(cs: seq<Case<V>>, i: nat, n: nat, cs': seq<Case<V>>)
    requires WellFormed(cs) && 1 <= i < n <= |cs| && cs' == Swap(cs, i, n - 1)
    ensures WellFormed(cs')
    ensures Active(cs', n - 1) + multiset{cs[i]} == Active(cs, n)
    ensures Spent(cs', n - 1) == Spent(cs, n) + multiset{cs[i]}
  {
    CutAfterSwap(cs, 1, i, n);
    TailAfterSwap(cs, i, n);
  }

  lemma BagsAfterDrop<V(!new)>(cs: seq<Case<V>>, k: nat, n: nat)
    requires WellFormed(cs) && 1 <= k < n <= |cs|
    ensures var cs' := RemoveAt(cs, k);
      && WellFormed(cs')
      && Active(cs', n - 1) + multiset{cs[k]} == Active(cs, n) && Spent(cs', n - 1) == Spent(cs, n)
  {
    CutByRemove(cs, k, 1, n);
  }

  lemma BagsAfterRetire<V(!new)>(cs: seq<Case<V>>, k: nat, n: nat)
    requires WellFormed(cs) && 1 <= n <= k < |cs|
    ensures var cs' := RemoveAt(cs, k);
      && WellFormed(cs')
      && Active(cs', n) == Active(cs, n) && Spent(cs', n) + multiset{cs[k]} == Spent(cs, n)
  {
    var cs' := RemoveAt(cs, k);
    assert cs'[1..n] == cs[1..n];
    CutByRemove(cs, k, n, |cs|);
    assert cs'[n..] == cs'[n..|cs| - 1] && cs[n..] == cs[n..|cs|];
  }

  /** Moving c from the first bag to the second, or to the third, leaves the sum as it was. */
  lemma MoveAcross<T>(a: multiset<T>, a': multiset<T>, c: T, b: multiset<T>, d: multiset<T>, sum: multiset<T>)
    requires a' + multiset{c} == a && a + b + d == sum
    ensures a' + (b + multiset{c}) + d == sum && a' + b + (d + multiset{c}) == sum
  {
  }

  /** Adding c on both sides. */
  lemma AddBoth<T>(a: multiset<T>, a': multiset<T>, c: T, b: multiset<T>, sum: multiset<T>)
    requires a' == a + multiset{c} && a + b == sum
    ensures a' + b == sum + multiset{c}
  {
  }

  lemma DeliverPreserves<V(!new)>(start: seq<Case<V>>, r: Round<V>, c: Case<V>, r': Round<V>)
    requires RoundInv(start, r) && r.active > 1
    requires WellFormed(r'.cases) && r'.active == r.active - 1 <= |r'.cases|
    requires Active(r'.cases, r'.active) + multiset{c} == Active(r.cases, r.active)
    requires Spent(r'.cases, r'.active) == Spent(r.cases, r.active) + multiset{c}
    requires r'.delivered == r.delivered + [c] && r'.dropped == r.dropped && r'.retired == r.retired
    ensures RoundInv(start, r')
  {
    MoveAcross(Active(r.cases, r.active), Active(r'.cases, r'.active), c,
               multiset(r.delivered), multiset(r.dropped), multiset(start[1..]));
    AddBoth(Spent(r.cases, r.active), Spent(r'.cases, r'.active), c, multiset(r.retired), multiset(r.delivered));
    assert multiset(r'.delivered) == multiset(r.delivered) + multiset{c};
  }

  lemma SwapPreserves<V(!new)>(start: seq<Case<V>>, r: Round<V>, i: nat, r': Round<V>)
    requires RoundInv(start, r) && 1 <= i < r.active
    requires r'.cases == Swap(r.cases, i, r.active - 1) && r'.active == r.active - 1
    requires r'.delivered == r.delivered + [r.cases[i]] && r'.dropped == r.dropped && r'.retired == r.retired
    ensures RoundInv(start, r')
  {
    var c := r.cases[i];
    BagsAfterDeliver(r.cases, i, r.active, r'.cases);
    DeliverPreserves(start, r, c, r');
  }

  lemma DropPreserves<V(!new)>(start: seq<Case<V>>, r: Round<V>, k: nat, r': Round<V>)
    requires RoundInv(start, r) && 1 <= k < r.active
    requires r' == r.(cases := RemoveAt(r.cases, k), active := r.active - 1, dropped := r.dropped + [r.cases[k]])
    ensures RoundInv(start, r')
  {
    var c, n, n' := r.cases[k], r.active, r.active - 1;
    BagsAfterDrop(r.cases, k, n);
    MoveAcross(Active(r.cases, n), Active(r'.cases, n'), c,
               multiset(r.delivered), multiset(r.dropped), multiset(start[1..]));
    assert multiset(r'.dropped) == multiset(r.dropped) + multiset{c};
  }

  lemma RetirePreserves<V(!new)>(start: seq<Case<V>>, r: Round<V>, k: nat, r': Round<V>)
    requires RoundInv(start, r) && r.active <= k < |r.cases|
    requires r' == r.(cases := RemoveAt(r.cases, k), retired := r.retired + [r.cases[k]])
    ensures RoundInv(start, r')
  {
    var c, n := r.cases[k], r.active;
    BagsAfterRetire(r.cases, k, n);
    MoveAcross(Spent(r.cases, n), Spent(r'.cases, n), c, multiset(r.retired), multiset{}, multiset(r.delivered));
    assert multiset(r'.retired) == multiset(r.retired) + multiset{c};
  }

  /** Every move keeps the bookkeeping and shortens len(sendCases) + len(cases). */
  lemma MovePreserves<V(!new)>(start: seq<Case<V>>, r: Round<V>, m: Move, value: V)
    requires Loaded(start, value)
    requires RoundInv(start, r) && CanMove(r, m)
    ensures RoundInv(start, Apply(r, m, value))
    ensures var r' := Apply(r, m, value); |r'.cases| + r'.active < |r.cases| + r.active
  {
    var r' := Apply(r, m, value);
    match m
    case TrySend(i) =>
      ActiveIsLoaded(start, r, value, i);
      assert r.cases[i].(send := Some(value)) == r.cases[i];
      SwapPreserves(start, r, i, r');
    case Selected(i) =>
      SwapPreserves(start, r, i, r');
    case Removal(ch) =>
      var k := Find(r.cases, ch);
      assert k != 0;
      if k < r.active {
        DropPreserves(start, r, k, r');
      } else {
        RetirePreserves(start, r, k, r');
      }
  }

  /** A whole round: any sequence of moves the environment may choose. */
  ghost predicate IsRound<V(!new)>(r: Round<V>, moves: seq<Move>, value: V)
    decreases |moves|
  {
    WellFormed(r.cases) &&
    (moves == [] || (CanMove(r, moves[0]) && IsRound(Apply(r, moves[0], value), moves[1..], value)))
  }

  ghost function Play<V(!new)>(r: Round<V>, moves: seq<Move>, value: V): Round<V>
    requires IsRound(r, moves, value)
    decreases |moves|
  {
    if moves == [] then r else Play(Apply(r, moves[0], value), moves[1..], value)
  }

  lemma {:induction false} PlayPreserves<V(!new)>(start: seq<Case<V>>, r: Round<V>, moves: seq<Move>, value: V)
    requires Loaded(start, value) && RoundInv(start, r) && IsRound(r, moves, value)
    ensures RoundInv(start, Play(r, moves, value))
    ensures |Play(r, moves, value).cases| + Play(r, moves, value).active + |moves| <= |r.cases| + r.active
    decreases |moves|
  {
    if moves != [] {
      MovePreserves(start, r, moves[0], value);
      PlayPreserves(start, Apply(r, moves[0], value), moves[1..], value);
    }
  }

  ghost predicate DistinctIds<V(!new)>(cs: seq<Case<V>>) {
    forall i, j :: 0 <= i < j < |cs| && cs[i].Subscriber? && cs[j].Subscriber? ==> cs[i].id != cs[j].id
  }

  lemma {:induction false} DistinctOnce<V(!new)>(cs: seq<Case<V>>, c: Case<V>)
    requires AllSubscribers(cs) && DistinctIds(cs) && c in cs
    ensures multiset(cs)[c] == 1
  {
    assert cs == [cs[0]] + cs[1..];
    if c in cs[1..] {
      DistinctOnce(cs[1..], c);
    } else {
      assert multiset(cs[1..])[c] == 0;
    }
  }

  /** When only removeSub is left active, every entry of the start has had the value once or
      was removed before it, and those still listed are the ones that had it. */
  lemma FinishedOnce<V(!new)>(start: seq<Case<V>>, end: Round<V>, c: Case<V>)
    requires RoundInv(start, end) && end.active == 1
    requires WellFormed(start) && DistinctIds(start) && c in start[1..]
    ensures multiset(end.delivered)[c] + multiset(end.dropped)[c] == 1
    ensures multiset(end.cases[1..]) + multiset(end.retired) == multiset(end.delivered)
  {
    DistinctOnce(start[1..], c);
    assert end.cases[1..1] == [];
  }

  /** The promise of Send: when a round is over, every entry present at its start had the
      value exactly once, or was removed before its turn and never had it. */
  lemma ExactlyOnce<V(!new)>(start: seq<Case<V>>, moves: seq<Move>, value: V, c: Case<V>)
    requires WellFormed(start) && Loaded(start, value) && DistinctIds(start) && c in start[1..]
    requires IsRound(Begin(start), moves, value) && Play(Begin(start), moves, value).active == 1
    ensures var end := Play(Begin(start), moves, value);
      && WellFormed(end.cases)
      && multiset(end.delivered)[c] + multiset(end.dropped)[c] == 1
      && multiset(end.cases[1..]) + multiset(end.retired) == multiset(end.delivered)
  {
    BeginInv(start);
    PlayPreserves(start, Begin(start), moves, value);
    FinishedOnce(start, Play(Begin(start), moves, value), c);
  }
}
