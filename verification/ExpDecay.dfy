/** ExpDecaySample of metrics/sample.go: a bounded reservoir of samples with exponentially
    growing keys, rescaled in place once an hour. Floats are reals and infinities; the clock
    and the random source are arguments. A draw of zero gives an infinite key. */
module ExpDecay {
  import opened Floats
  import opened Seqs
  import opened SampleHeap

  const RESCALE_THRESHOLD := 3600.0

  function Sum(x: real, y: real): real { x + y }

  /** What the properties need of math.Exp. */
  ghost predicate IsExp(f: real -> real) {
    && (forall x :: f(x) > 0.0)
    && (forall x, y {:trigger Sum(x, y)} :: f(Sum(x, y)) == f(x) * f(y))
  }

  datatype Config = Config(exp: real -> real, alpha: real, size: nat)

  datatype Reservoir = Reservoir(count: nat, t0: real, t1: real, heap: seq<Sample>)

  function Scale(s: Sample, f: real): Sample { s.(k := Times(s.k, f)) }

  function Scaled(q: seq<Sample>, f: real): (r: seq<Sample>)
    ensures |r| == |q|
  {
    Map(q, s => Scale(s, f))
  }

  /** The rescale loop: push the scaled samples one by one onto `acc`. */
  function PushAll(acc: seq<Sample>, rest: seq<Sample>, f: real): (r: seq<Sample>)
    ensures |r| == |acc| + |rest|
    decreases |rest|
  {
    if rest == [] then acc else PushAll(Push(acc, Scale(rest[0], f)), rest[1..], f)
  }

  function New(now: real): Reservoir { Reservoir(0, now, now + RESCALE_THRESHOLD, []) }

  function Exponent(alpha: real, t: real, T: real): real { (t - T) * alpha }

  /** The key of a sample born at `born` with random number `draw`, seen from time T. */
  function Key(c: Config, T: real, born: real, draw: real): Ext {
    Quotient(c.exp(Exponent(c.alpha, born, T)), draw)
  }

  function Fresh(c: Config, r: Reservoir, t: real, u: real, v: int): Sample {
    Sample(Key(c, r.t0, t, u), v, t, u)
  }

  /** The heap after a full one gave up its root. */
  function MakeRoom(c: Config, r: Reservoir): (q: seq<Sample>)
    requires c.size > 0
    ensures |r.heap| <= c.size ==> |q| < c.size
  {
    if |r.heap| == c.size then Popped(r.heap) else r.heap
  }

  function DecayExponent(alpha: real, T: real, T': real): real { -alpha * (T' - T) }

  /** The factor that moves the landmark from T to T'. */
  function Decay(c: Config, T: real, T': real): real { c.exp(DecayExponent(c.alpha, T, T')) }

  function Admitted(c: Config, r: Reservoir, t: real, u: real, v: int): (h: seq<Sample>)
    requires c.size > 0
  {
    Push(MakeRoom(c, r), Fresh(c, r, t, u, v))
  }

  function Update(c: Config, r: Reservoir, t: real, u: real, v: int): Reservoir
    requires c.size > 0
  {
    var heap := Admitted(c, r, t, u, v);
    if t > r.t1
    then Reservoir(r.count + 1, t, t + RESCALE_THRESHOLD, PushAll([], heap, Decay(c, r.t0, t)))
    else Reservoir(r.count + 1, r.t0, r.t1, heap)
  }

  // ---------- Rescaling ----------

  lemma PushAllNext(acc: seq<Sample>, items: seq<Sample>, i: nat, f: real)
    requires i < |items|
    ensures PushAll(acc, items[i..], f) == PushAll(Push(acc, Scale(items[i], f)), items[i + 1..], f)
  {
    assert items[i..][1..] == items[i + 1..];
  }

  lemma {:induction false} PushAllIsHeap(acc: seq<Sample>, rest: seq<Sample>, f: real)
    requires IsHeap(acc)
    ensures IsHeap(PushAll(acc, rest, f))
    ensures multiset(PushAll(acc, rest, f)) == multiset(acc) + multiset(Scaled(rest, f))
    decreases |rest|
  {
    if rest == [] {
      assert Scaled(rest, f) == [];
    } else {
      var s := Scale(rest[0], f);
      PushIsHeap(acc, s);
      PushAllIsHeap(Push(acc, s), rest[1..], f);
      assert Scaled(rest, f) == [s] + Scaled(rest[1..], f);
    }
  }

  // ---------- Forward-decay weights ----------

  /** A sample without its key. */
  datatype Arrival = Arrival(v: int, born: real, draw: real)

  function Strip(s: Sample): Arrival { Arrival(s.v, s.born, s.draw) }

  function Arrivals(q: seq<Sample>): (r: seq<Arrival>)
    ensures |r| == |q|
  {
    Map(q, Strip)
  }

  /** The weight of an arrival as seen from the landmark time T. */
  function Weight(c: Config, T: real, a: Arrival): Ext {
    Key(c, T, a.born, a.draw)
  }

  ghost predicate Weighed(c: Config, T: real, s: Sample) {
    s.k == Weight(c, T, Strip(s))
  }

  ghost predicate AllWeighed(c: Config, T: real, q: seq<Sample>) {
    forall i :: 0 <= i < |q| ==> Weighed(c, T, q[i])
  }

  lemma DivMul(x: real, y: real, d: real)
    requires d != 0.0
    ensures x * y / d == x / d * y
  {
    var z := x / d;
    assert x == z * d;
    assert x * y == (z * y) * d;
  }

  /** Moving the landmark multiplies every weight by the same positive factor. */
  lemma LandmarkMoves(c: Config, T: real, T': real, a: Arrival)
    requires IsExp(c.exp)
    ensures Decay(c, T, T') > 0.0
    ensures Weight(c, T', a) == Times(Weight(c, T, a), Decay(c, T, T'))
  {
    var x, y := Exponent(c.alpha, a.born, T), DecayExponent(c.alpha, T, T');
    assert Sum(x, y) == Exponent(c.alpha, a.born, T');
    if a.draw != 0.0 {
      DivMul(c.exp(x), c.exp(y), a.draw);
    }
  }

  lemma UnitFactor(x: real, y: real)
    requires x != 0.0 && x * y == x
    ensures y == 1.0
  {
    assert x * (y - 1.0) == 0.0;
  }

  lemma ExpOfSum(f: real -> real, x: real, y: real)
    requires IsExp(f)
    ensures f(x + y) == f(x) * f(y)
  {
    assert Sum(x, y) == x + y;
  }

  lemma ExpOfZero(f: real -> real)
    requires IsExp(f)
    ensures f(0.0) == 1.0
  {
    ExpOfSum(f, 1.0, 0.0);
    UnitFactor(f(1.0), f(0.0));
  }

  /** Seen from its own birth, an arrival weighs the reciprocal of its random number. */
  lemma BirthWeight(c: Config, a: Arrival)
    requires IsExp(c.exp)
    ensures Weight(c, a.born, a) == Quotient(1.0, a.draw)
  {
    ExpOfZero(c.exp);
    assert Exponent(c.alpha, a.born, a.born) == 0.0;
  }

  /** The factor of a rescale undoes the growth of the weights over the same time. */
  lemma DecayUndoesGrowth(c: Config, T: real, T': real)
    requires IsExp(c.exp)
    ensures Decay(c, T, T') * c.exp(c.alpha * (T' - T)) == 1.0
  {
    var x, y := DecayExponent(c.alpha, T, T'), c.alpha * (T' - T);
    assert Sum(x, y) == 0.0;
    ExpOfZero(c.exp);
  }

  ghost predicate Increasing(f: real -> real) { forall x, y :: x < y ==> f(x) < f(y) }

  lemma ProductPositive(x: real, y: real)
    requires x > 0.0 && y > 0.0
    ensures x * y > 0.0
  {
  }

  /** Moving the landmark forward makes every weight smaller. */
  lemma DecayBelowOne(c: Config, T: real, T': real)
    requires IsExp(c.exp) && Increasing(c.exp) && c.alpha > 0.0 && T < T'
    ensures 0.0 < Decay(c, T, T') < 1.0
  {
    ExpOfZero(c.exp);
    ProductPositive(c.alpha, T' - T);
    assert DecayExponent(c.alpha, T, T') < 0.0;
  }

  lemma ScaleOrder(a: real, b: real, f: real)
    requires f > 0.0
    ensures a <= b <==> a * f <= b * f
  {
    if a <= b {
      assert (b - a) * f >= 0.0;
    } else {
      assert (a - b) * f > 0.0;
    }
  }

  lemma QuotientOrder(x: real, y: real, d: real)
    requires x < y && d > 0.0
    ensures x / d < y / d
  {
    var p, q := x / d, y / d;
    assert p * d == x && q * d == y;
    if q <= p {
      ScaleOrder(q, p, d);
    }
  }

  /** Recent values count for more: of two arrivals with the same random number the later
      one is strictly heavier, from any landmark. */
  lemma LaterIsHeavier(c: Config, T: real, a: Arrival, b: Arrival)
    requires IsExp(c.exp) && Increasing(c.exp) && c.alpha > 0.0
    requires a.born < b.born && a.draw == b.draw > 0.0
    ensures !AtMost(Weight(c, T, b), Weight(c, T, a))
  {
    var x, y := Exponent(c.alpha, a.born, T), Exponent(c.alpha, b.born, T);
    ProductPositive(b.born - a.born, c.alpha);
    assert y - x == (b.born - a.born) * c.alpha;
    assert x < y;
    QuotientOrder(c.exp(x), c.exp(y), a.draw);
  }

  lemma TimesOrder(a: Ext, b: Ext, f: real)
    requires f > 0.0
    ensures AtMost(a, b) <==> AtMost(Times(a, f), Times(b, f))
  {
    if a.Fin? && b.Fin? {
      ScaleOrder(a.x, b.x, f);
    }
  }

  /** The order of two arrivals is the same from every landmark. */
  lemma OrderIsAbsolute(c: Config, T: real, T': real, a: Arrival, b: Arrival)
    requires IsExp(c.exp)
    ensures AtMost(Weight(c, T, a), Weight(c, T, b)) <==> AtMost(Weight(c, T', a), Weight(c, T', b))
  {
    LandmarkMoves(c, T, T', a);
    LandmarkMoves(c, T, T', b);
    TimesOrder(Weight(c, T, a), Weight(c, T, b), Decay(c, T, T'));
  }

  lemma ElementsWeighed(c: Config, T: real, p: seq<Sample>, q: seq<Sample>)
    requires AllWeighed(c, T, p) && multiset(q) <= multiset(p)
    ensures AllWeighed(c, T, q)
  {
    forall i | 0 <= i < |q| ensures Weighed(c, T, q[i]) {
      assert q[i] in multiset(q);
      assert q[i] in multiset(p);
      assert q[i] in p;
    }
  }

  lemma ScaledWeighed(c: Config, T: real, T': real, q: seq<Sample>)
    requires IsExp(c.exp) && AllWeighed(c, T, q)
    ensures AllWeighed(c, T', Scaled(q, Decay(c, T, T')))
  {
    var f := Decay(c, T, T');
    forall i | 0 <= i < |q| ensures Weighed(c, T', Scaled(q, f)[i]) {
      assert Weighed(c, T, q[i]);
      LandmarkMoves(c, T, T', Strip(q[i]));
    }
  }

  lemma ScaledArrivals(q: seq<Sample>, f: real)
    ensures Arrivals(Scaled(q, f)) == Arrivals(q)
  {
  }

  /** The rescale of update: afterwards the heap holds the same arrivals, every old key is
      multiplied by one positive factor, and is thus the weight seen from the new landmark. */
  lemma RescaleMovesLandmark(c: Config, T: real, T': real, q: seq<Sample>)
    requires IsExp(c.exp) && AllWeighed(c, T, q)
    ensures var f := Decay(c, T, T'); var p := PushAll([], q, f);
      && f > 0.0 && IsHeap(p) && AllWeighed(c, T', p)
      && multiset(p) == multiset(Scaled(q, f))
      && multiset(Arrivals(p)) == multiset(Arrivals(q))
  {
    var f := Decay(c, T, T');
    var p := PushAll([], q, f);
    PushAllIsHeap([], q, f);
    ScaledWeighed(c, T, T', q);
    ElementsWeighed(c, T', Scaled(q, f), p);
    MapPermuted(p, Scaled(q, f), Strip);
    ScaledArrivals(q, f);
  }

  // ---------- The invariant and one update ----------

  ghost predicate Inv(c: Config, r: Reservoir) {
    && IsHeap(r.heap)
    && |r.heap| == (if r.count < c.size then r.count else c.size)
    && r.t1 == r.t0 + RESCALE_THRESHOLD
    && AllWeighed(c, r.t0, r.heap)
  }

  /** The arrivals an update of a full reservoir pushes out: its root, or nothing. */
  function Evicted(c: Config, r: Reservoir): seq<Arrival>
    requires c.size > 0
  {
    if |r.heap| == c.size then [Strip(r.heap[0])] else []
  }

  lemma MakeRoomKeeps(c: Config, r: Reservoir)
    requires c.size > 0 && Inv(c, r)
    ensures IsHeap(MakeRoom(c, r)) && AllWeighed(c, r.t0, MakeRoom(c, r))
    ensures multiset(Arrivals(MakeRoom(c, r))) + multiset(Evicted(c, r)) == multiset(Arrivals(r.heap))
  {
    if |r.heap| == c.size {
      var q, p := r.heap, Popped(r.heap);
      PopIsHeap(q);
      ElementsWeighed(c, r.t0, q, p);
      MapPermuted(q, p + [q[0]], Strip);
      MapConcat(p, [q[0]], Strip);
      assert Map([q[0]], Strip) == [Strip(q[0])];
    }
  }

  lemma PushKeeps(c: Config, T: real, q: seq<Sample>, s: Sample)
    requires IsHeap(q) && AllWeighed(c, T, q) && Weighed(c, T, s)
    ensures IsHeap(Push(q, s)) && AllWeighed(c, T, Push(q, s))
    ensures multiset(Arrivals(Push(q, s))) == multiset(Arrivals(q)) + multiset{Strip(s)}
  {
    PushIsHeap(q, s);
    ElementsWeighed(c, T, q + [s], Push(q, s));
    MapPermuted(Push(q, s), q + [s], Strip);
    MapConcat(q, [s], Strip);
    assert Map([s], Strip) == [Strip(s)];
  }

  lemma AdmitKeeps(c: Config, r: Reservoir, t: real, u: real, v: int)
    requires c.size > 0 && Inv(c, r)
    ensures var h := Admitted(c, r, t, u, v);
      && IsHeap(h) && AllWeighed(c, r.t0, h)
      && |h| == (if r.count + 1 < c.size then r.count + 1 else c.size)
      && multiset(Arrivals(h)) + multiset(Evicted(c, r)) == multiset(Arrivals(r.heap)) + multiset{Arrival(v, t, u)}
  {
    MakeRoomKeeps(c, r);
    PushKeeps(c, r.t0, MakeRoom(c, r), Fresh(c, r, t, u, v));
  }

  /** One update, with or without a rescale: the newest arrival comes in, at most the root
      goes out, everything else stays, and the invariant is kept. */
  lemma UpdateKeeps(c: Config, r: Reservoir, t: real, u: real, v: int)
    requires IsExp(c.exp) && c.size > 0 && Inv(c, r)
    ensures var r' := Update(c, r, t, u, v);
      && Inv(c, r')
      && multiset(Arrivals(r'.heap)) + multiset(Evicted(c, r))
         == multiset(Arrivals(r.heap)) + multiset{Arrival(v, t, u)}
  {
    AdmitKeeps(c, r, t, u, v);
    if t > r.t1 {
      RescaleMovesLandmark(c, r.t0, t, Admitted(c, r, t, u, v));
    }
  }

  /** A full reservoir gives up an arrival that is lightest from every landmark, so the
      choice does not depend on when the rescales happened. */
  lemma EvictsLightest(c: Config, r: Reservoir, T: real, i: nat)
    requires IsExp(c.exp) && c.size > 0 && Inv(c, r) && |r.heap| == c.size && i < |r.heap|
    ensures AtMost(Weight(c, T, Evicted(c, r)[0]), Weight(c, T, Strip(r.heap[i])))
  {
    RootIsLeast(r.heap, i);
    assert Weighed(c, r.t0, r.heap[0]) && Weighed(c, r.t0, r.heap[i]);
    OrderIsAbsolute(c, r.t0, T, Strip(r.heap[0]), Strip(r.heap[i]));
  }

  // ---------- Runs ----------

  datatype Op = Add(t: real, u: real, v: int) | Clear(now: real)

  /** A reservoir with its past since the last Clear: the arrivals it gave up, and the
      newest one. `rest` is what it holds besides the newest. */
  datatype Trace = Trace(r: Reservoir, evicted: seq<Arrival>, rest: multiset<Arrival>, newest: seq<Arrival>)

  ghost function Start(now: real): Trace { Trace(New(now), [], multiset{}, []) }

  ghost function Step(c: Config, s: Trace, op: Op): Trace
    requires c.size > 0
  {
    match op
    case Add(t, u, v) =>
      Trace(Update(c, s.r, t, u, v), s.evicted + Evicted(c, s.r),
            multiset(Arrivals(s.r.heap)) - multiset(Evicted(c, s.r)), [Arrival(v, t, u)])
    case Clear(now) => Start(now)
  }

  /** The trace of a new reservoir after the operations. */
  ghost function Run(c: Config, now: real, ops: seq<Op>): Trace
    requires c.size > 0
  {
    Fold((s, op) => Step(c, s, op), Start(now), ops)
  }

  /** The Add operations behind the last Clear. */
  ghost function SinceClear(ops: seq<Op>): seq<Arrival> {
    if ops == [] then []
    else
      var op := ops[|ops| - 1];
      if op.Clear? then [] else SinceClear(ops[..|ops| - 1]) + [Arrival(op.v, op.t, op.u)]
  }

  /** a is no heavier than b, seen from the landmark 0 and hence from any. */
  ghost predicate NoHeavier(c: Config, a: Arrival, b: Arrival) {
    AtMost(Weight(c, 0.0, a), Weight(c, 0.0, b))
  }

  /** Everything held besides the newest arrival is as heavy as anything given up. */
  ghost predicate Dominates(c: Config, rest: multiset<Arrival>, evicted: seq<Arrival>) {
    forall x, i :: x in rest && 0 <= i < |evicted| ==> NoHeavier(c, evicted[i], x)
  }

  ghost function Held(r: Reservoir): multiset<Arrival> { multiset(Arrivals(r.heap)) }

  /** The account of a bag of arrivals: what it holds besides the newest, what it gave up
      (nothing before it was full), and the past that makes up both. */
  ghost predicate Books(c: Config, held: multiset<Arrival>, full: bool, rest: multiset<Arrival>,
                        newest: seq<Arrival>, evicted: seq<Arrival>, past: seq<Arrival>) {
    && held == rest + multiset(newest)
    && held + multiset(evicted) == multiset(past)
    && newest == (if past == [] then [] else [past[|past| - 1]])
    && (!full ==> evicted == [])
    && Dominates(c, rest, evicted)
  }

  ghost predicate TraceInv(c: Config, s: Trace, past: seq<Arrival>) {
    && Inv(c, s.r) && s.r.count == |past|
    && Books(c, Held(s.r), |s.r.heap| == c.size, s.rest, s.newest, s.evicted, past)
  }

  /** Taking m out of a bag that is `rest` and one more leaves x: unless x was in `rest`,
      m came from there. */
  lemma OtherIsInRest<A>(bag: multiset<A>, rest: multiset<A>, newest: seq<A>, m: A, x: A)
    requires bag == rest + multiset(newest) && |newest| <= 1 && m in bag
    requires x in bag - multiset{m} && x !in rest
    ensures m in rest
  {
    assert newest == [x];
    assert bag[x] == 1;
  }

  lemma RootNoHeavier(c: Config, r: Reservoir, x: Arrival)
    requires IsExp(c.exp) && c.size > 0 && Inv(c, r) && |r.heap| == c.size && x in multiset(Arrivals(r.heap))
    ensures NoHeavier(c, Strip(r.heap[0]), x)
  {
    var k :| 0 <= k < |r.heap| && Arrivals(r.heap)[k] == x;
    EvictsLightest(c, r, 0.0, k);
  }

  lemma DominationGrows(c: Config, held: multiset<Arrival>, rest: multiset<Arrival>, newest: seq<Arrival>,
                        evicted: seq<Arrival>, m: Arrival)
    requires held == rest + multiset(newest) && |newest| <= 1 && m in held
    requires Dominates(c, rest, evicted) && forall x :: x in held ==> NoHeavier(c, m, x)
    ensures Dominates(c, held - multiset{m}, evicted + [m])
  {
    forall x, i | x in held - multiset{m} && 0 <= i < |evicted + [m]|
      ensures NoHeavier(c, (evicted + [m])[i], x)
    {
      if i < |evicted| && x !in rest {
        // x is the previous newest arrival, so m is one of the others
        OtherIsInRest(held, rest, newest, m, x);
        assert NoHeavier(c, evicted[i], m) && NoHeavier(c, m, x);
      }
    }
  }

  /** Giving up a lightest arrival m and taking in a keeps the books. */
  lemma BooksWhenFull(c: Config, held: multiset<Arrival>, rest: multiset<Arrival>, newest: seq<Arrival>,
                      evicted: seq<Arrival>, past: seq<Arrival>, held': multiset<Arrival>, m: Arrival, a: Arrival)
    requires Books(c, held, true, rest, newest, evicted, past)
    requires m in held && (forall x :: x in held ==> NoHeavier(c, m, x))
    requires held' + multiset{m} == held + multiset{a}
    ensures Books(c, held', true, held - multiset{m}, [a], evicted + [m], past + [a])
  {
    DominationGrows(c, held, rest, newest, evicted, m);
    ExchangeOne(held', multiset{m}, held, a);
    assert held' + multiset(evicted + [m]) == held + multiset(evicted) + multiset{a};
  }

  lemma BooksWhenRoom(c: Config, held: multiset<Arrival>, rest: multiset<Arrival>, newest: seq<Arrival>,
                      past: seq<Arrival>, a: Arrival, full': bool)
    requires Books(c, held, false, rest, newest, [], past)
    ensures Books(c, held + multiset{a}, full', held, [a], [], past + [a])
  {
    assert multiset([a]) == multiset{a};
  }

  lemma AddKeepsBooks(c: Config, s: Trace, past: seq<Arrival>, r': Reservoir, a: Arrival)
    requires IsExp(c.exp) && c.size > 0 && TraceInv(c, s, past)
    requires Held(r') + multiset(Evicted(c, s.r)) == Held(s.r) + multiset{a}
    requires |s.r.heap| == c.size ==> |r'.heap| == c.size
    ensures Books(c, Held(r'), |r'.heap| == c.size, Held(s.r) - multiset(Evicted(c, s.r)), [a],
                  s.evicted + Evicted(c, s.r), past + [a])
  {
    if |s.r.heap| == c.size {
      var m := Strip(s.r.heap[0]);
      assert Arrivals(s.r.heap)[0] == m;
      forall x | x in Held(s.r) ensures NoHeavier(c, m, x) {
        RootNoHeavier(c, s.r, x);
      }
      assert multiset(Evicted(c, s.r)) == multiset{m};
      BooksWhenFull(c, Held(s.r), s.rest, s.newest, s.evicted, past, Held(r'), m, a);
    } else {
      assert s.evicted + Evicted(c, s.r) == [];
      assert Held(r') == Held(s.r) + multiset{a} && Held(s.r) - multiset(Evicted(c, s.r)) == Held(s.r);
      BooksWhenRoom(c, Held(s.r), s.rest, s.newest, past, a, |r'.heap| == c.size);
    }
  }

  lemma AddKeepsTrace(c: Config, s: Trace, past: seq<Arrival>, t: real, u: real, v: int)
    requires IsExp(c.exp) && c.size > 0 && TraceInv(c, s, past)
    ensures TraceInv(c, Step(c, s, Add(t, u, v)), past + [Arrival(v, t, u)])
  {
    UpdateKeeps(c, s.r, t, u, v);
    AddKeepsBooks(c, s, past, Update(c, s.r, t, u, v), Arrival(v, t, u));
  }

  lemma SinceClearStep(done: seq<Op>, op: Op)
    ensures SinceClear(done + [op]) == if op.Clear? then [] else SinceClear(done) + [Arrival(op.v, op.t, op.u)]
  {
    assert (done + [op])[..|done|] == done;
  }

  lemma StartTrace(c: Config, now: real)
    requires c.size > 0
    ensures TraceInv(c, Start(now), [])
  {
    assert Arrivals([]) == [];
  }

  /** TraceInv for the past that the operations so far leave. */
  ghost predicate Good(c: Config, s: Trace, done: seq<Op>) {
    TraceInv(c, s, SinceClear(done))
  }

  lemma StepKeepsTrace(c: Config, s: Trace, done: seq<Op>, op: Op)
    requires IsExp(c.exp) && c.size > 0 && Good(c, s, done)
    ensures Good(c, Step(c, s, op), done + [op])
  {
    SinceClearStep(done, op);
    if op.Add? {
      AddKeepsTrace(c, s, SinceClear(done), op.t, op.u, op.v);
    } else {
      StartTrace(c, op.now);
    }
  }

  lemma RunKeepsTrace(c: Config, now: real, ops: seq<Op>)
    requires IsExp(c.exp) && c.size > 0
    ensures Good(c, Run(c, now, ops), ops)
  {
    var step := (s: Trace, op: Op) => Step(c, s, op);
    var P := (s: Trace, done: seq<Op>) => Good(c, s, done);
    forall s, done, op | P(s, done) ensures P(step(s, op), done + [op]) {
      StepKeepsTrace(c, s, done, op);
    }
    StartTrace(c, now);
    FoldKeeps(step, Start(now), ops, P);
  }

  /** Every run: the reservoir is a heap of the right size, holds the newest arrival since
      the last Clear, and besides it the heaviest of the earlier ones: nothing given up is
      heavier than anything kept, from any landmark. */
  lemma ReservoirOfHeaviest(c: Config, now: real, ops: seq<Op>, T: real, x: Arrival, i: nat)
    requires IsExp(c.exp) && c.size > 0
    ensures var s := Run(c, now, ops); var past := SinceClear(ops);
      && IsHeap(s.r.heap)
      && |s.r.heap| == (if |past| < c.size then |past| else c.size)
      && multiset(Arrivals(s.r.heap)) + multiset(s.evicted) == multiset(past)
      && (past != [] ==> multiset(Arrivals(s.r.heap)) == s.rest + multiset{past[|past| - 1]})
      && (x in s.rest && i < |s.evicted| ==> AtMost(Weight(c, T, s.evicted[i]), Weight(c, T, x)))
  {
    RunKeepsTrace(c, now, ops);
    var s := Run(c, now, ops);
    if x in s.rest && i < |s.evicted| {
      assert NoHeavier(c, s.evicted[i], x);
      OrderIsAbsolute(c, 0.0, T, s.evicted[i], x);
    }
  }

  /** ExpDecaySample. The mutex makes each method one critical section. */
  class ExpDecaySample {
    ghost const c: Config
    const exp: real -> real
    const alpha: real
    const reservoirSize: nat
    var count: nat
    var t0: real
    var t1: real
    const values: Heap

    ghost predicate Valid()
      reads this, values, values.buf
    {
      && c == Config(exp, alpha, reservoirSize)
      && values.Valid() && values.buf.Length == reservoirSize
      && IsExp(exp) && Inv(c, State())
    }

    ghost function State(): Reservoir
      requires values.Valid()
      reads this, values, values.buf
    {
      Reservoir(count, t0, t1, values.Items())
    }

    constructor (exp: real -> real, alpha: real, reservoirSize: nat, now: real)
      requires IsExp(exp)
      ensures Valid() && c == Config(exp, alpha, reservoirSize) && State() == New(now)
      ensures count == 0 && t0 == now && t1 == now + 3600.0 && values.Items() == []
      ensures fresh(values) && fresh(values.buf)
    {
      this.c := Config(exp, alpha, reservoirSize);
      this.exp, this.alpha, this.reservoirSize := exp, alpha, reservoirSize;
      count, t0, t1 := 0, now, now + RESCALE_THRESHOLD;
      values := new Heap(reservoirSize);
    }

    method Clear(now: real)
      requires Valid()
      modifies this, values`len
      ensures Valid() && State() == New(now)
      ensures count == 0 && t0 == now && t1 == now + 3600.0 && values.Items() == []
    {
      count := 0;
      t0 := now;
      t1 := t0 + RESCALE_THRESHOLD;
      values.Clear();
    }

    /** update; with a reservoir of size 0 the source panics in Pop. */
    method UpdateAt(t: real, u: real, v: int)
      requires Valid() && reservoirSize > 0
      modifies this, values, values.buf
      ensures Valid() && values.buf == old(values.buf)
      ensures State() == Update(c, old(State()), t, u, v)
      ensures count == old(count) + 1 && t0 == (if t > old(t0) + 3600.0 then t else old(t0))
      ensures AllWeighed(c, t0, values.Items())
      ensures multiset(Arrivals(values.Items())) + multiset(Evicted(c, old(State())))
           == multiset(Arrivals(old(values.Items()))) + multiset{Arrival(v, t, u)}
    {
      UpdateKeeps(c, State(), t, u, v);
      AdmitAndRescale(t, u, v);
    }

    /** The body of update. */
    method AdmitAndRescale(t: real, u: real, v: int)
      requires values.Valid() && values.buf.Length == reservoirSize > 0
      requires c == Config(exp, alpha, reservoirSize)
      modifies this, values, values.buf
      ensures values.Valid() && values.buf == old(values.buf)
      ensures State() == Update(c, old(State()), t, u, v)
    {
      count := count + 1;
      Admit(t, u, v);
      if t > t1 {
        Rescale(exp(DecayExponent(alpha, t0, t)));
        t0 := t;
        t1 := t0 + RESCALE_THRESHOLD;
      }
    }

    /** The first half of update: make room, then push. */
    method Admit(t: real, u: real, v: int)
      requires values.Valid() && values.buf.Length == reservoirSize > 0
      requires c == Config(exp, alpha, reservoirSize)
      modifies values, values.buf
      ensures values.Valid() && values.buf == old(values.buf)
      ensures values.Items() == Push(MakeRoom(c, old(State())), Fresh(c, old(State()), t, u, v))
    {
      if values.len == reservoirSize {
        var _ := values.PopSample();
      }
      values.PushSample(Sample(Quotient(exp(Exponent(alpha, t, t0)), u), v, t, u));
    }

    /** The loop over the old slice that pushes into the same backing array. Slot i is read
        before the push that fills it, so no element is overwritten unread. */
    method Rescale(f: real)
      requires values.Valid()
      modifies values, values.buf
      ensures values.Valid() && values.buf == old(values.buf)
      ensures values.Items() == PushAll([], old(values.Items()), f)
    {
      var n := values.len;
      ghost var items := values.Items();
      values.Clear();
      for i := 0 to n
        invariant values.Valid() && values.buf == old(values.buf) && values.len == i <= n <= values.buf.Length
        invariant forall j :: i <= j < n ==> values.buf[j] == items[j]
        invariant PushAll(values.Items(), items[i..], f) == PushAll([], items, f)
      {
        PushAllNext(values.Items(), items, i, f);
        var s := values.buf[i];
        values.PushSample(Scale(s, f));
      }
    }
  }
}
