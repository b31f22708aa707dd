/** Whom a Post of TypeMux (event/event.go) reaches, over all runs of the protocol. */
module TypeMuxPosts {
  import opened Seqs
  import opened TypeMuxLists
  import opened TypeMuxProtocol

  // ---------- Who is listed ----------

  predicate Unsubscribes(run: seq<Action>, x: Sub) {
    exists a :: a in run && a.Unsubscribe? && a.sub == x
  }

  predicate Stops(run: seq<Action>) { exists a :: a in run && a.EndStop? }

  /** The subscriptions that a run asks for a type, in the order in which they are made. */
  ghost function Newcomers(run: seq<Action>, typ: Type): seq<Sub> {
    if run == [] then [] else
    (if run[0].Subscribe? && Reaches([], run[0].types, typ) then [run[0].sub] else []) + Newcomers(run[1..], typ)
  }

  /** Those of them that the run does not unsubscribe. */
  function Staying(q: seq<Sub>, run: seq<Action>): seq<Sub> {
    if q == [] then [] else
    (if Unsubscribes(run, q[0]) then [] else [q[0]]) + Staying(q[1..], run)
  }

  lemma {:induction false} StayingAlike(q: seq<Sub>, run: seq<Action>, run': seq<Action>)
    requires forall x :: x in q ==> (Unsubscribes(run, x) <==> Unsubscribes(run', x))
    ensures Staying(q, run) == Staying(q, run')
    decreases |q|
  {
    if q != [] {
      StayingAlike(q[1..], run, run');
    }
  }

  lemma {:induction false} StayingAgain(q: seq<Sub>, run: seq<Action>, run': seq<Action>, x: Sub)
    requires Unsubscribes(run, x)
    requires forall y :: y != x ==> (Unsubscribes(run, y) <==> Unsubscribes(run', y))
    ensures Staying(q, run) == Staying(Without(q, x), run')
    decreases |q|
  {
    if q != [] {
      StayingAgain(q[1..], run, run', x);
      if q[0] != x {
        var rest := Without(q[1..], x);
        assert Without(q, x) == [q[0]] + rest && ([q[0]] + rest)[1..] == rest;
      }
    }
  }

  lemma {:induction false} WithoutJoined(p: seq<Sub>, q: seq<Sub>, x: Sub)
    requires x !in q
    ensures Without(p + q, x) == Without(p, x) + q
    decreases |p|
  {
    if p == [] {
      assert p + q == q;
      WithoutAbsent(q, x);
    } else {
      assert (p + q)[1..] == p[1..] + q;
      WithoutJoined(p[1..], q, x);
    }
  }

  /** A subscription is made once. */
  lemma {:induction false} NoNewcomerTwice(s: State, run: seq<Action>, x: Sub, typ: Type)
    requires IsRun(s, run) && x in s.subs
    ensures x !in Newcomers(run, typ)
    decreases |run|
  {
    if run != [] {
      TypedStays(s, run[0], x);
      NoNewcomerTwice(Next(s, run[0]), run[1..], x, typ);
    }
  }

  lemma RestRuns(run: seq<Action>)
    requires run != []
    ensures Stops(run) <==> run[0].EndStop? || Stops(run[1..])
    ensures forall x ::
      Unsubscribes(run, x) <==> (run[0].Unsubscribe? && run[0].sub == x) || Unsubscribes(run[1..], x)
  {
    assert forall a :: a in run <==> a == run[0] || a in run[1..];
    assert run[0] in run;
  }

  /** Where a list stands at the end of a run. */
  ghost function Audience(q: seq<Sub>, stopped: bool, run: seq<Action>, typ: Type): seq<Sub> {
    if Stops(run) then []
    else Staying(q + if stopped then [] else Newcomers(run, typ), run)
  }

  lemma StepListed(s: State, a: Action, typ: Type)
    requires Inv(s) && Enabled(s, a) && !a.EndStop?
    ensures Next(s, a).stopped == s.stopped
    ensures a.Unsubscribe? ==> ListOf(Next(s, a).lists, typ) == Without(ListOf(s.lists, typ), a.sub)
    ensures !a.Unsubscribe? ==>
      ListOf(Next(s, a).lists, typ) == ListOf(s.lists, typ) + if s.stopped then [] else Newcomers([a], typ)
  {
    match a
    case Subscribe(sub, types, _) =>
      if !s.stopped {
        assert !Listed(s.lists, sub);
        AddedExactly(s.lists, types, sub, typ);
      }
    case Unsubscribe(_, sub) => RemovedSpec(s.lists, sub);
    case _ =>
  }

  lemma NewcomersStep(a: Action, rest: seq<Action>, typ: Type)
    ensures Newcomers([a] + rest, typ) == Newcomers([a], typ) + Newcomers(rest, typ)
  {
    assert ([a] + rest)[1..] == rest;
  }

  lemma AudienceLeft(q: seq<Sub>, stopped: bool, a: Action, rest: seq<Action>, typ: Type)
    requires a.Unsubscribe? && a.sub !in Newcomers(rest, typ)
    ensures Audience(q, stopped, [a] + rest, typ) == Audience(Without(q, a.sub), stopped, rest, typ)
  {
    var run := [a] + rest;
    assert run[1..] == rest;
    RestRuns(run);
    assert Newcomers(run, typ) == Newcomers(rest, typ);
    var more := if stopped then [] else Newcomers(rest, typ);
    WithoutJoined(q, more, a.sub);
    StayingAgain(q + more, run, rest, a.sub);
  }

  lemma AudienceGrown(q: seq<Sub>, stopped: bool, a: Action, rest: seq<Action>, typ: Type)
    requires !a.EndStop? && !a.Unsubscribe?
    ensures var q' := q + if stopped then [] else Newcomers([a], typ);
      Audience(q, stopped, [a] + rest, typ) == Audience(q', stopped, rest, typ)
  {
    var run := [a] + rest;
    assert run[1..] == rest;
    RestRuns(run);
    NewcomersStep(a, rest, typ);
    var more := if stopped then [] else Newcomers(run, typ);
    var now, later := if stopped then [] else Newcomers([a], typ), if stopped then [] else Newcomers(rest, typ);
    StayingAlike(q + more, run, rest);
    assert q + more == (q + now) + later;
  }

  lemma {:induction false} StayingAll(q: seq<Sub>)
    ensures Staying(q, []) == q
  {
    if q != [] {
      StayingAll(q[1..]);
    }
  }

  lemma {:induction false} AudienceKept(s: State, run: seq<Action>, typ: Type)
    requires Inv(s) && IsRun(s, run)
    ensures ListOf(Exec(s, run).lists, typ) == Audience(ListOf(s.lists, typ), s.stopped, run, typ)
    decreases |run|
  {
    var q := ListOf(s.lists, typ);
    if run == [] {
      assert q + (if s.stopped then [] else Newcomers(run, typ)) == q;
      StayingAll(q);
    } else {
      var a, s', rest := run[0], Next(s, run[0]), run[1..];
      StepKeeps(s, a);
      AudienceKept(s', rest, typ);
      assert [a] + rest == run;
      RestRuns(run);
      if !a.EndStop? {
        StepListed(s, a, typ);
        if a.Unsubscribe? {
          NoNewcomerTwice(s', rest, a.sub, typ);
          AudienceLeft(q, s.stopped, a, rest, typ);
        } else {
          AudienceGrown(q, s.stopped, a, rest, typ);
        }
      }
    }
  }

  /** Whom a Post reaches: the subscriptions made for the type and not unsubscribed, in the
      order in which they were made, until a Stop returns, and nobody after that. */
  lemma ListedExactly(run: seq<Action>, typ: Type)
    requires IsRun(Init(), run)
    ensures ListOf(Exec(Init(), run).lists, typ) == if Stops(run) then [] else Staying(Newcomers(run, typ), run)
  {
    AudienceKept(Init(), run, typ);
    assert [] + Newcomers(run, typ) == Newcomers(run, typ);
  }

  /** What a step makes of a subscription that is there, or that it makes. */
  lemma StepMakes(s: State, a: Action, x: Sub)
    requires Enabled(s, a)
    ensures x in Next(s, a).subs <==> x in s.subs || (a.Subscribe? && a.sub == x)
    ensures x in s.subs ==> Next(s, a).subs[x].created == s.subs[x].created
    ensures a.Subscribe? ==> Next(s, a).subs[a.sub].created == a.created
    ensures a.Subscribe? ==> Next(s, a).subs[a.sub].typed == (a.types != [])
  {
  }

  /** A subscription is known exactly from its Subscribe on, with the time and the types it
      was given there. */
  lemma {:induction false} MadeBySubscribe(s: State, run: seq<Action>, x: Sub)
    requires IsRun(s, run)
    ensures x in Exec(s, run).subs <==> x in s.subs || exists a :: a in run && a.Subscribe? && a.sub == x
    ensures x in s.subs ==>
      Exec(s, run).subs[x].created == s.subs[x].created && Exec(s, run).subs[x].typed == s.subs[x].typed
    ensures forall a :: a in run && a.Subscribe? && a.sub == x ==>
      Exec(s, run).subs[x].created == a.created && Exec(s, run).subs[x].typed == (a.types != [])
    decreases |run|
  {
    if run != [] {
      StepMakes(s, run[0], x);
      if x in s.subs {
        TypedStays(s, run[0], x);
      }
      MadeBySubscribe(Next(s, run[0]), run[1..], x);
      assert forall a :: a in run <==> a == run[0] || a in run[1..];
    }
  }

  // ---------- What a Post does ----------

  /** How a Post dealt with one subscription, and the subscription at that moment. */
  datatype Meeting =
    | Stale(sub: Sub, st: SubState)
    | Sent(sub: Sub, st: SubState)
    | Abandoned(sub: Sub, st: SubState)

  function MeetingOf(s: State, a: Action, tid: Tid): seq<Meeting>
    requires Enabled(s, a)
  {
    match a
    case SkipStale(t) => if t == tid then var x := s.threads[t].rest[0]; [Stale(x, s.subs[x])] else []
    case SendEvent(t) => if t == tid then var x := s.threads[t].sub; [Sent(x, s.subs[x])] else []
    case AbandonEvent(t) => if t == tid then var x := s.threads[t].sub; [Abandoned(x, s.subs[x])] else []
    case _ => []
  }

  /** Whom goroutine tid met in a run, in order. */
  function Meetings(s: State, run: seq<Action>, tid: Tid): seq<Meeting>
    requires IsRun(s, run)
    decreases |run|
  {
    if run == [] then [] else MeetingOf(s, run[0], tid) + Meetings(Next(s, run[0]), run[1..], tid)
  }

  function Met(meetings: seq<Meeting>): seq<Sub> { Map(meetings, (m: Meeting) => m.sub) }

  /** The event was sent on an open channel, or dropped for a reason: the subscription is
      newer than the event, or it is being closed. */
  predicate Justified(m: Meeting, time: Time) {
    match m
    case Stale(_, st) => st.created > time
    case Sent(_, st) => st.created <= time && st.postC == Open
    case Abandoned(_, st) => st.created <= time && st.closing
  }

  ghost predicate AllJustified(meetings: seq<Meeting>, time: Time) {
    forall m :: m in meetings ==> Justified(m, time)
  }

  lemma MetInTurn(first: seq<Meeting>, rest: seq<Meeting>, time: Time, a: seq<Sub>, b: seq<Sub>, c: seq<Sub>)
    requires AllJustified(first, time) && AllJustified(rest, time) && Met(first) + b == a && Met(rest) + c == b
    ensures AllJustified(first + rest, time) && Met(first + rest) + c == a
  {
    MapConcat(first, rest, (m: Meeting) => m.sub);
  }

  /** Goroutine tid is in a Post of an event of the given time. */
  predicate PostingAt(s: State, tid: Tid, time: Time) {
    && tid in s.threads
    && match s.threads[tid]
       case Posting(_, t) => t == time
       case Delivering(sub, _, t) => t == time && sub in s.subs && s.subs[sub].created <= time
       case _ => false
  }

  function Pending(s: State, tid: Tid): seq<Sub>
    requires tid in s.threads
  {
    match s.threads[tid]
    case Posting(rest, _) => rest
    case Delivering(sub, rest, _) => [sub] + rest
    case _ => []
  }

  predicate InDelivery(a: Action, tid: Tid) {
    a in [SkipStale(tid), BeginDeliver(tid), SendEvent(tid), AbandonEvent(tid)]
  }

  lemma PostWaits(s: State, a: Action, tid: Tid, time: Time)
    requires Enabled(s, a) && PostingAt(s, tid, time) && a != EndPost(tid) && !InDelivery(a, tid)
    ensures tid in Next(s, a).threads && Next(s, a).threads[tid] == s.threads[tid] && MeetingOf(s, a, tid) == []
  {
  }

  lemma SkipMoves(s: State, tid: Tid, time: Time)
    requires Enabled(s, SkipStale(tid)) && PostingAt(s, tid, time)
    ensures var a := SkipStale(tid);
      && PostingAt(Next(s, a), tid, time) && AllJustified(MeetingOf(s, a, tid), time)
      && Met(MeetingOf(s, a, tid)) + Pending(Next(s, a), tid) == Pending(s, tid)
  {
  }

  lemma DeliveryMoves(s: State, a: Action, tid: Tid, time: Time)
    requires Enabled(s, a) && PostingAt(s, tid, time) && ThreadOk(s, tid)
    requires a == BeginDeliver(tid) || a == SendEvent(tid) || a == AbandonEvent(tid)
    ensures PostingAt(Next(s, a), tid, time) && AllJustified(MeetingOf(s, a, tid), time)
    ensures Met(MeetingOf(s, a, tid)) + Pending(Next(s, a), tid) == Pending(s, tid)
  {
  }

  /** Each step of a Post meets the next subscription or goes towards it. */
  lemma PostStep(s: State, a: Action, tid: Tid, time: Time)
    requires Inv(s) && Enabled(s, a) && PostingAt(s, tid, time) && a != EndPost(tid)
    ensures PostingAt(Next(s, a), tid, time)
    ensures Met(MeetingOf(s, a, tid)) + Pending(Next(s, a), tid) == Pending(s, tid)
    ensures AllJustified(MeetingOf(s, a, tid), time)
  {
    assert ThreadOk(s, tid);
    if a == SkipStale(tid) {
      SkipMoves(s, tid, time);
    } else if InDelivery(a, tid) {
      DeliveryMoves(s, a, tid, time);
    } else {
      PostWaits(s, a, tid, time);
      if s.threads[tid].Delivering? {
        StepMakes(s, a, s.threads[tid].sub);
      }
    }
  }

  lemma {:induction false} PostRuns(s: State, run: seq<Action>, tid: Tid, time: Time)
    requires Inv(s) && IsRun(s, run) && PostingAt(s, tid, time) && EndPost(tid) !in run
    ensures PostingAt(Exec(s, run), tid, time)
    ensures Met(Meetings(s, run, tid)) + Pending(Exec(s, run), tid) == Pending(s, tid)
    ensures AllJustified(Meetings(s, run, tid), time)
    decreases |run|
  {
    if run != [] {
      var a, s', rest := run[0], Next(s, run[0]), run[1..];
      StepKeeps(s, a);
      PostStep(s, a, tid, time);
      PostRuns(s', rest, tid, time);
      MetInTurn(MeetingOf(s, a, tid), Meetings(s', rest, tid), time,
                Pending(s, tid), Pending(s', tid), Pending(Exec(s, run), tid));
    }
  }

  lemma {:induction false} StoppedExactly(s: State, run: seq<Action>)
    requires IsRun(s, run)
    ensures Exec(s, run).stopped <==> s.stopped || Stops(run)
    decreases |run|
  {
    if run != [] {
      RestRuns(run);
      StoppedExactly(Next(s, run[0]), run[1..]);
    }
  }

  /** Post sends an event to all receivers registered for its type: between the step that
      reads the list and the return, it meets each subscription of that list exactly once
      and in order, with a send, or with a reason not to send. */
  lemma PostMeetsEach(before: seq<Action>, typ: Type, time: Time, tid: Tid, during: seq<Action>)
    requires IsRun(Init(), before) && !Exec(Init(), before).stopped
    requires Enabled(Exec(Init(), before), BeginPost(tid, typ, time))
    requires IsRun(Next(Exec(Init(), before), BeginPost(tid, typ, time)), during) && EndPost(tid) !in during
    requires Enabled(Exec(Next(Exec(Init(), before), BeginPost(tid, typ, time)), during), EndPost(tid))
    ensures var s := Next(Exec(Init(), before), BeginPost(tid, typ, time));
      && Met(Meetings(s, during, tid)) == Staying(Newcomers(before, typ), before)
      && NoDup(Met(Meetings(s, during, tid)))
      && AllJustified(Meetings(s, during, tid), time)
  {
    var s0 := Exec(Init(), before);
    var a := BeginPost(tid, typ, time);
    RunKeeps(Init(), before);
    StepKeeps(s0, a);
    PostRuns(Next(s0, a), during, tid, time);
    ListedExactly(before, typ);
    StoppedExactly(Init(), before);
  }

  /** A Post that comes after Stop reaches nobody. */
  lemma PostAfterStop(run: seq<Action>, tid: Tid, typ: Type, time: Time)
    requires IsRun(Init(), run) && Enabled(Exec(Init(), run), BeginPost(tid, typ, time)) && Stops(run)
    ensures Next(Exec(Init(), run), BeginPost(tid, typ, time)) == Exec(Init(), run)
  {
    StoppedExactly(Init(), run);
  }
}
