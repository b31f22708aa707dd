/** Feed.Send and Feed.Subscribe of event/feed.go on the shared backing array.

    `sendCases` is the slice buf[..len]; the local `cases` of Send is the prefix
    buf[..active] of the same array. What the other goroutines do (which TrySend succeeds,
    which case a select picks, which channel arrives on removeSub) is left open by class
    Network, so the contract of Send covers every order of events.
 */
module FeedSend {
  import opened FeedCases
  import opened Options
  import opened Seqs

  /** What a channel was handed, and the channel of an entry. */
  function Receipt<V>(c: Case<V>): (nat, Option<V>) {
    if c.Subscriber? then (c.ch, c.send) else (0, None)
  }

  function Channel<V>(c: Case<V>): nat { Receipt(c).0 }

  function Receipts<V>(r: Round<V>): seq<(nat, Option<V>)> { Map(r.delivered, Receipt) }

  ghost function Removals<V(!new)>(r: Round<V>): multiset<nat> {
    multiset(Map(r.dropped, Channel)) + multiset(Map(r.retired, Channel))
  }

  lemma RemovalLogged<V(!new)>(r: Round<V>, ch: nat, value: V)
    requires WellFormed(r.cases) && CanMove(r, Removal(ch))
    ensures var r' := Apply(r, Removal(ch), value);
      Receipts(r') == Receipts(r) && Removals(r') == Removals(r) + multiset{ch}
  {
    var c := r.cases[Find(r.cases, ch)];
    MapConcat(r.dropped, [c], Channel);
    MapConcat(r.retired, [c], Channel);
    assert Map([c], Channel) == [ch];
  }

  lemma SendLogged<V(!new)>(r: Round<V>, r': Round<V>, c: Case<V>)
    requires r'.delivered == r.delivered + [c] && r'.dropped == r.dropped && r'.retired == r.retired
    ensures Receipts(r') == Receipts(r) + [Receipt(c)] && Removals(r') == Removals(r)
  {
    MapConcat(r.delivered, [c], Receipt);
    assert Map([c], Receipt) == [Receipt(c)];
  }

  /** The channels: they log each value they take and each channel sent on removeSub. */
  class Network<V(!new)> {
    var sent: seq<(nat, Option<V>)>
    var removed: multiset<nat>

    constructor ()
      ensures sent == [] && removed == multiset{}
    {
      sent, removed := [], multiset{};
    }

    method TrySend(ch: nat, value: V) returns (ok: bool)
      modifies this
      ensures removed == old(removed)
      ensures sent == if ok then old(sent) + [(ch, Some(value))] else old(sent)
    {
      ok := *;
      if ok {
        sent := sent + [(ch, Some(value))];
      }
    }

    /** reflect.Select over the first `active` cases: either one of them takes its parked
        value, or a channel is received on removeSub. That the channel has an entry is the
        guarantee of module FeedProtocol. */
    method Select(cases: seq<Case<V>>, active: nat) returns (chosen: nat, ch: nat)
      requires WellFormed(cases) && 1 < active <= |cases|
      modifies this
      ensures chosen < active
      ensures chosen == 0 ==> Find(cases, ch) >= 0 && sent == old(sent) && removed == old(removed) + multiset{ch}
      ensures chosen > 0 ==> sent == old(sent) + [Receipt(cases[chosen])] && removed == old(removed)
    {
      chosen :| 0 <= chosen < active;
      ch := 0;
      if chosen == 0 {
        var entry: nat :| 1 <= entry < |cases|;
        ch := cases[entry].ch;
        assert ForChannel(cases[entry], ch);
        removed := removed + multiset{ch};
      } else {
        sent := sent + [Receipt(cases[chosen])];
      }
    }
  }

  /** Since the logs were `sent0` and `removed0`, the network has seen exactly the
      deliveries and removals of the round. */
  ghost predicate Logged<V(!new)>(net: Network<V>, sent0: seq<(nat, Option<V>)>, removed0: multiset<nat>, r: Round<V>)
    reads net
  {
    net.sent == sent0 + Receipts(r) && net.removed == removed0 + Removals(r)
  }

  class Feed<V(!new)> {
    var buf: array<Case<V>>
    var len: nat
    var inbox: seq<Case<V>>

    ghost predicate Valid()
      reads this, buf
    {
      len <= buf.Length && WellFormed(buf[..len]) && AllSubscribers(inbox)
    }

    ghost function SendCases(): (cs: seq<Case<V>>)
      requires len <= buf.Length
      reads this, buf
    {
      buf[..len]
    }

    constructor ()
      ensures Valid() && fresh(buf) && SendCases() == [RemoveSub] && inbox == []
    {
      buf := new Case<V>[1](_ => RemoveSub);
      len := 1;
      inbox := [];
    }

    method Subscribe(id: nat, ch: nat)
      requires Valid()
      modifies this`inbox
      ensures Valid() && inbox == old(inbox) + [Subscriber(id, ch, None)]
    {
      inbox := inbox + [Subscriber(id, ch, None)];
    }

    /** caseList.find on sendCases. */
    method FindCase(ch: nat) returns (r: int)
      requires Valid()
      ensures r == Find(SendCases(), ch)
    {
      for i := 0 to len
        invariant forall k :: 0 <= k < i ==> !ForChannel(buf[k], ch)
      {
        if ForChannel(buf[i], ch) {
          assert ForChannel(buf[..len][i], ch);
          return i;
        }
      }
      return -1;
    }

    /** caseList.delete on sendCases: the entries behind `index` move one slot left in the
        same array, which the prefix `cases` shares. */
    method DeleteCase(index: nat)
      requires Valid() && 1 <= index < len
      modifies this`len, buf
      ensures Valid() && len == old(len) - 1
      ensures SendCases() == RemoveAt(old(SendCases()), index)
    {
      forall j | index <= j < len - 1 {
        buf[j] := buf[j + 1];
      }
      len := len - 1;
      assert buf[..len] == RemoveAt(old(buf[..len]), index);
    }

    /** caseList.deactivate on the prefix buf[..active]. */
    method Deactivate(active: nat, index: nat) returns (shorter: nat)
      requires Valid() && 1 <= index < active <= len
      modifies buf
      ensures Valid() && shorter == active - 1
      ensures SendCases() == Swap(old(SendCases()), index, active - 1)
    {
      var last := active - 1;
      buf[index], buf[last] := buf[last], buf[index];
      assert buf[..len] == Swap(old(buf[..len]), index, last);
      return last;
    }

    /** append(f.sendCases, f.inbox...); the array is replaced when its capacity is short. */
    method TakeInbox()
      requires Valid()
      modifies this, buf
      ensures Valid() && (buf == old(buf) || fresh(buf))
      ensures SendCases() == old(SendCases() + inbox) && inbox == []
    {
      var n := len + |inbox|;
      var more := inbox;
      if buf.Length < n {
        var bigger := new Case<V>[2 * n](_ => RemoveSub);
        forall j | 0 <= j < len {
          bigger[j] := buf[j];
        }
        buf := bigger;
      }
      forall j | 0 <= j < |more| {
        buf[len + j] := more[j];
      }
      assert buf[..n] == old(buf[..len] + inbox);
      len := n;
      inbox := [];
      assert WellFormed(buf[..len]);
    }

    method ParkValue(v: Option<V>)
      requires Valid()
      modifies buf
      ensures Valid() && SendCases() == SetSend(old(SendCases()), v)
    {
      ghost var before := buf[..len];
      for i := 1 to len
        invariant len == old(len)
        invariant forall k :: 0 <= k < len ==> buf[k] == (if 1 <= k < i then before[k].(send := v) else before[k])
        invariant WellFormed(before)
      {
        assert buf[i] == before[i];
        buf[i] := buf[i].(send := v);
      }
      assert buf[..len] == SetSend(before, v);
    }

    /** A channel has taken the value: its case leaves the active prefix. */
    method SetAside(ghost value: V, ghost start: seq<Case<V>>, active: nat, ghost r: Round<V>, index: nat,
                    ghost m: Move)
      returns (active': nat, ghost r': Round<V>)
      requires Valid() && Loaded(start, value) && RoundInv(start, r)
      requires r.cases == SendCases() && r.active == active && 1 <= index < active
      requires m == TrySend(index) || m == Selected(index)
      modifies buf
      ensures Valid() && RoundInv(start, r') && r'.cases == SendCases() && r'.active == active' == active - 1
      ensures Receipts(r') == Receipts(r) + [(r.cases[index].ch, Some(value))] && Removals(r') == Removals(r)
      ensures |r'.delivered| == |r.delivered| + 1 && r'.dropped == r.dropped && r'.retired == r.retired
    {
      MovePreserves(start, r, m, value);
      ActiveIsLoaded(start, r, value, index);
      r' := Apply(r, m, value);
      SendLogged(r, r', r.cases[index]);
      active' := Deactivate(active, index);
    }

    /** The fast path: one scan that tries every active channel without blocking. */
    method TrySendAll(value: V, net: Network<V>, ghost start: seq<Case<V>>, active: nat, ghost r: Round<V>,
                      ghost sent0: seq<(nat, Option<V>)>, ghost removed0: multiset<nat>)
      returns (active': nat, sent: nat, ghost r': Round<V>)
      requires Valid() && Loaded(start, value) && RoundInv(start, r)
      requires r.cases == SendCases() && r.active == active && Logged(net, sent0, removed0, r)
      modifies buf, net
      ensures Valid() && RoundInv(start, r') && r'.cases == SendCases() && r'.active == active'
      ensures Logged(net, sent0, removed0, r')
      ensures active' <= active
      ensures |r'.delivered| == |r.delivered| + sent
      ensures r'.dropped == r.dropped && r'.retired == r.retired
    {
      active', sent, r' := active, 0, r;
      var i := 1;
      while i < active'
        invariant Valid() && RoundInv(start, r') && r'.cases == SendCases() && r'.active == active'
        invariant Logged(net, sent0, removed0, r')
        invariant 1 <= i && active' <= active
        invariant |r'.delivered| == |r.delivered| + sent
        invariant r'.dropped == r.dropped && r'.retired == r.retired
        decreases active' - i
      {
        assert buf[i] == r'.cases[i];
        var accepted := net.TrySend(buf[i].ch, value);
        if accepted {
          sent := sent + 1;
          active', r' := SetAside(value, start, active', r', i, TrySend(i));
        } else {
          i := i + 1;
        }
      }
    }

    /** The blocking select: one active case is sent to, or one channel is received on
        removeSub and its entry deleted. */
    method SelectOne(value: V, net: Network<V>, ghost start: seq<Case<V>>, active: nat, ghost r: Round<V>,
                     ghost sent0: seq<(nat, Option<V>)>, ghost removed0: multiset<nat>)
      returns (active': nat, sent: nat, ghost r': Round<V>)
      requires Valid() && Loaded(start, value) && RoundInv(start, r)
      requires r.cases == SendCases() && r.active == active > 1 && Logged(net, sent0, removed0, r)
      modifies this`len, buf, net
      ensures Valid() && RoundInv(start, r') && r'.cases == SendCases() && r'.active == active'
      ensures Logged(net, sent0, removed0, r')
      ensures len + active' < old(len) + active
      ensures |r'.delivered| == |r.delivered| + sent
    {
      var chosen, ch := net.Select(buf[..len], active);
      if chosen == 0 {
        active', r' := RemoveOne(value, start, active, r, ch);
        sent := 0;
      } else {
        ActiveIsLoaded(start, r, value, chosen);
        active', r' := SetAside(value, start, active, r, chosen, Selected(chosen));
        sent := 1;
      }
    }

    /** A channel has arrived on removeSub: its entry goes, and `cases` shrinks with it when
        the entry was still active. */
    method RemoveOne(ghost value: V, ghost start: seq<Case<V>>, active: nat, ghost r: Round<V>, ch: nat)
      returns (active': nat, ghost r': Round<V>)
      requires Valid() && Loaded(start, value) && RoundInv(start, r)
      requires r.cases == SendCases() && r.active == active > 1 && Find(r.cases, ch) >= 0
      modifies this`len, buf
      ensures Valid() && RoundInv(start, r') && r'.cases == SendCases() && r'.active == active'
      ensures len + active' < old(len) + active
      ensures Receipts(r') == Receipts(r) && Removals(r') == Removals(r) + multiset{ch}
      ensures r'.delivered == r.delivered
    {
      MovePreserves(start, r, Removal(ch), value);
      RemovalLogged(r, ch, value);
      r' := Apply(r, Removal(ch), value);
      var index := FindCase(ch);
      DeleteCase(index);
      active' := if index < active then active - 1 else active;
    }

    /** The loop of Send: alternate the fast path and the select until only removeSub is left. */
    method DeliverAll(value: V, net: Network<V>, ghost start: seq<Case<V>>) returns (nsent: nat, ghost end: Round<V>)
      requires Valid() && Loaded(start, value) && start == SendCases()
      modifies this`len, buf, net
      ensures Valid() && RoundInv(start, end) && end.active == 1
      ensures SendCases() == end.cases && nsent == |end.delivered|
      ensures Logged(net, old(net.sent), old(net.removed), end)
    {
      BeginInv(start);
      var active := len;
      assert Logged(net, net.sent, net.removed, Begin(start));
      active, nsent, end := TrySendAll(value, net, start, active, Begin(start), net.sent, net.removed);
      while active != 1
        invariant Valid() && RoundInv(start, end)
        invariant end.cases == SendCases() && end.active == active
        invariant nsent == |end.delivered|
        invariant Logged(net, old(net.sent), old(net.removed), end)
        decreases len + active
      {
        var n, m;
        active, n, end := SelectOne(value, net, start, active, end, old(net.sent), old(net.removed));
        active, m, end := TrySendAll(value, net, start, active, end, old(net.sent), old(net.removed));
        nsent := nsent + n + m;
      }
    }

    /** Send: `start` is the list the round begins with and `end` what became of it. */
    method Send(value: V, net: Network<V>) returns (nsent: nat, ghost start: seq<Case<V>>, ghost end: Round<V>)
      requires Valid()
      modifies this, buf, net
      ensures Valid() && inbox == []
      ensures start == SetSend(old(SendCases() + inbox), Some(value))
      ensures RoundInv(start, end) && end.active == 1
      ensures SendCases() == SetSend(end.cases, None)
      ensures nsent == |end.delivered|
      ensures Logged(net, old(net.sent), old(net.removed), end)
    {
      LoadCases(value);
      start := SendCases();
      nsent, end := DeliverAndForget(value, net, start);
    }

    /** The delivery loop, and the loop that forgets the sent value. */
    method DeliverAndForget(value: V, net: Network<V>, ghost start: seq<Case<V>>)
      returns (nsent: nat, ghost end: Round<V>)
      requires Valid() && Loaded(start, value) && start == SendCases()
      modifies this`len, buf, net
      ensures Valid() && RoundInv(start, end) && end.active == 1
      ensures SendCases() == SetSend(end.cases, None) && nsent == |end.delivered|
      ensures Logged(net, old(net.sent), old(net.removed), end)
    {
      nsent, end := DeliverAll(value, net, start);
      ParkValue(None);
    }

    /** The part of Send before the delivery loop. */
    method LoadCases(value: V)
      requires Valid()
      modifies this, buf
      ensures Valid() && (buf == old(buf) || fresh(buf)) && inbox == []
      ensures SendCases() == SetSend(old(SendCases() + inbox), Some(value)) && Loaded(SendCases(), value)
    {
      TakeInbox();
      ParkValue(Some(value));
    }
  }
}
