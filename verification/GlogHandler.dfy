/** Level filtering of log/handler_glog.go: a global level, override rules, and a cache of
    the rule scan per call site. Rule matching is a function of the call site. */
module GlogHandler {
  import opened Options

  type Site = nat

  /** A compiled rule; Vmodule drops rules with a level of zero or less. */
  datatype Rule = Rule(matches: Site -> bool, level: int)

  type Rules = seq<Rule>

  datatype Record = Record(site: Site, lvl: int)

  function ToUint32(x: int): nat { x % 0x1_0000_0000 }

  ghost predicate Positive(rules: Rules) {
    forall i :: 0 <= i < |rules| ==> rules[i].level > 0
  }

  /** The level of the first rule that matches, 0 if none does. */
  function FirstMatch(rules: Rules, site: Site): int {
    if rules == [] then 0
    else if rules[0].matches(site) then rules[0].level
    else FirstMatch(rules[1..], site)
  }

  /** Whether a record passes, without any cache. */
  predicate Verdict(level: nat, rules: Rules, r: Record) {
    level >= ToUint32(r.lvl) || (rules != [] && FirstMatch(rules, r.site) >= r.lvl)
  }

  lemma {:induction false} MatchNotNegative(rules: Rules, site: Site)
    requires Positive(rules)
    ensures FirstMatch(rules, site) >= 0
  {
    if rules != [] && !rules[0].matches(site) {
      MatchNotNegative(rules[1..], site);
    }
  }

  /** Rule i is the first that matches. */
  ghost predicate FirstAt(rules: Rules, site: Site, i: nat) {
    i < |rules| && rules[i].matches(site) && forall j :: 0 <= j < i ==> !rules[j].matches(site)
  }

  lemma {:induction false} FirstMatchAt(rules: Rules, site: Site, i: nat)
    requires FirstAt(rules, site, i)
    ensures FirstMatch(rules, site) == rules[i].level
  {
    if i > 0 {
      assert rules[1..][i - 1] == rules[i];
      FirstMatchAt(rules[1..], site, i - 1);
    }
  }

  lemma {:induction false} FirstMatchNone(rules: Rules, site: Site)
    requires forall i :: 0 <= i < |rules| ==> !rules[i].matches(site)
    ensures FirstMatch(rules, site) == 0
  {
    if rules != [] {
      FirstMatchNone(rules[1..], site);
    }
  }

  lemma {:induction false} FindFirst(rules: Rules, site: Site) returns (i: nat)
    ensures i == |rules| ==> forall j :: 0 <= j < |rules| ==> !rules[j].matches(site)
    ensures i != |rules| ==> FirstAt(rules, site, i)
  {
    if rules == [] || rules[0].matches(site) {
      i := 0;
    } else {
      i := FindFirst(rules[1..], site);
      i := i + 1;
    }
  }

  /** A record of an ordinary level passes the global level, or the first rule that matches
      its site, or, if there are rules and none matches, level 0. */
  lemma VerdictExactly(level: nat, rules: Rules, r: Record)
    requires 0 <= r.lvl < 0x1_0000_0000
    ensures Verdict(level, rules, r) <==>
      || r.lvl <= level
      || (exists i: nat :: FirstAt(rules, r.site, i) && r.lvl <= rules[i].level)
      || (rules != [] && r.lvl == 0)
  {
    var i := FindFirst(rules, r.site);
    if i < |rules| {
      FirstMatchAt(rules, r.site, i);
      assert forall k: nat :: FirstAt(rules, r.site, k) ==> !(k < i) && !(i < k);
    } else {
      FirstMatchNone(rules, r.site);
    }
  }

  ghost predicate CacheOk(cache: map<Site, int>, rules: Rules) {
    forall x :: x in cache ==> cache[x] == FirstMatch(rules, x)
  }

  // ---------- One call at a time ----------

  class Handler {
    var level: nat
    var override: bool
    var patterns: Rules
    var siteCache: Option<map<Site, int>>

    ghost predicate Valid()
      reads this
    {
      && (override <==> patterns != [])
      && (patterns != [] ==> siteCache.Some?)
      && (siteCache.Some? ==> CacheOk(siteCache.value, patterns))
    }

    constructor ()
      ensures Valid() && level == 0 && patterns == [] && !override && siteCache == None
    {
      level, override, patterns, siteCache := 0, false, [], None;
    }

    method Verbosity(l: nat)
      requires Valid()
      modifies this`level
      ensures Valid() && level == l
    {
      level := l;
    }

    /** Vmodule once the rules are compiled. */
    method Vmodule(filter: Rules)
      requires Valid()
      modifies this
      ensures Valid() && patterns == filter && level == old(level)
    {
      patterns := filter;
      siteCache := Some(map[]);
      override := |filter| != 0;
    }

    /** The level and cache decision of Log: the verdict is that of the plain scan. */
    method Log(r: Record) returns (logged: bool)
      requires Valid()
      modifies this`siteCache
      ensures Valid() && logged == Verdict(level, patterns, r)
    {
      if level >= ToUint32(r.lvl) {
        return true;
      }
      if !override {
        return false;
      }
      var lvl := 0;
      if r.site in siteCache.value {
        lvl := siteCache.value[r.site];
      } else {
        lvl := Scan(r.site);
        siteCache := Some(siteCache.value[r.site := lvl]);
      }
      return lvl >= r.lvl;
    }

    method Scan(site: Site) returns (lvl: int)
      ensures lvl == FirstMatch(patterns, site)
    {
      for i := 0 to |patterns|
        invariant FirstMatch(patterns[i..], site) == FirstMatch(patterns, site)
      {
        assert patterns[i..][0] == patterns[i] && patterns[i..][1..] == patterns[i + 1..];
        if patterns[i].matches(site) {
          return patterns[i].level;
        }
      }
      return 0;
    }
  }

  // ---------- All interleavings ----------

  /** A call of Log. `since` is the rule set in force when it started, `saw` the level it
      read, `used` a rule set it saw in force through the override flag. The rule sets are
      named by their place in the list of all that were installed. */
  datatype Call =
    | Started(r: Record, since: nat)
    | PastLevel(r: Record, since: nat, saw: nat)
    | PastOverride(r: Record, since: nat, saw: nat, used: nat)
    | Missed(r: Record, since: nat, saw: nat, used: nat)
    | Finished(r: Record, since: nat, saw: nat, until: nat, logged: bool)

  /** `installs` lists all rule sets ever swapped in, the first one empty; `current` is the
      newest whose Vmodule has finished. While `installing`, Vmodule holds the lock and has
      swapped the rules but not yet stored the flag. */
  datatype State = State(
    level: nat,
    override: bool,
    patterns: Rules,
    siteCache: Option<map<Site, int>>,
    installs: seq<Rules>,
    current: nat,
    installing: bool,
    calls: map<nat, Call>,
    panicked: bool)

  function Init(level: nat): State { State(level, false, [], None, [[]], 0, false, map[], false) }

  datatype Action =
    | SetLevel(level: nat)
    | BeginVmodule(filter: Rules)
    | EndVmodule
    | BeginLog(id: nat, r: Record)
    | ReadLevel(id: nat)
    | ReadOverride(id: nat)
    | Lookup(id: nat)
    | Fill(id: nat)

  ghost predicate Enabled(s: State, a: Action) {
    && !s.panicked
    && match a
       case SetLevel(_) => true
       case BeginVmodule(filter) => !s.installing && Positive(filter)
       case EndVmodule => s.installing
       case BeginLog(id, _) => id !in s.calls
       case ReadLevel(id) => id in s.calls && s.calls[id].Started?
       case ReadOverride(id) => id in s.calls && s.calls[id].PastLevel?
       case Lookup(id) => !s.installing && id in s.calls && s.calls[id].PastOverride?
       case Fill(id) => !s.installing && id in s.calls && s.calls[id].Missed?
  }

  function Newest(s: State): nat { if |s.installs| == 0 then 0 else |s.installs| - 1 }

  function Put(s: State, id: nat, c: Call): State { s.(calls := s.calls[id := c]) }

  function Finish(s: State, c: Call, saw: nat, logged: bool): Call {
    Finished(c.r, c.since, saw, Newest(s), logged)
  }

  /** One step. Reading a nil map finds nothing; writing one panics. */
  function Next(s: State, a: Action): State
    requires Enabled(s, a)
  {
    match a
    case SetLevel(level) => s.(level := level)
    case BeginVmodule(filter) =>
      s.(patterns := filter, siteCache := Some(map[]), installs := s.installs + [filter], installing := true)
    case EndVmodule =>
      s.(override := s.patterns != [], current := Newest(s), installing := false)
    case BeginLog(id, r) => Put(s, id, Started(r, s.current))
    case ReadLevel(id) =>
      var c := s.calls[id];
      if s.level >= ToUint32(c.r.lvl) then Put(s, id, Finish(s, c, s.level, true))
      else Put(s, id, PastLevel(c.r, c.since, s.level))
    case ReadOverride(id) =>
      var c := s.calls[id];
      if !s.override then Put(s, id, Finish(s, c, c.saw, false))
      else Put(s, id, PastOverride(c.r, c.since, c.saw, s.current))
    case Lookup(id) =>
      var c := s.calls[id];
      if s.siteCache.Some? && c.r.site in s.siteCache.value
      then Put(s, id, Finish(s, c, c.saw, s.siteCache.value[c.r.site] >= c.r.lvl))
      else Put(s, id, Missed(c.r, c.since, c.saw, c.used))
    case Fill(id) =>
      var c := s.calls[id];
      var lvl := FirstMatch(s.patterns, c.r.site);
      if s.siteCache.None? then s.(panicked := true)
      else Put(s, id, Finish(s, c, c.saw, lvl >= c.r.lvl)).(siteCache := Some(s.siteCache.value[c.r.site := lvl]))
  }

  ghost predicate RulesOk(s: State) {
    && |s.installs| >= 1 && s.installs[0] == []
    && (forall k :: 0 <= k < |s.installs| ==> Positive(s.installs[k]))
    && s.patterns == s.installs[|s.installs| - 1]
    && s.current == (if s.installing then |s.installs| - 2 else |s.installs| - 1) && s.current >= 0
    && (s.override <==> s.installs[s.current] != [])
    && (|s.installs| > 1 ==> s.siteCache.Some?)
    && (s.siteCache.Some? ==> CacheOk(s.siteCache.value, s.patterns))
  }

  /** A rule set that was in force at some time during the call justifies its verdict. */
  ghost predicate Justified(s: State, c: Call)
    requires c.Finished?
  {
    exists k :: c.since <= k <= c.until < |s.installs| && c.logged == Verdict(c.saw, s.installs[k], c.r)
  }

  ghost predicate UsedOk(s: State, since: nat, used: nat) {
    since <= used <= s.current && used < |s.installs| && s.installs[used] != []
  }

  ghost predicate CallOk(s: State, c: Call) {
    match c
    case Started(_, since) => since <= s.current
    case PastLevel(r, since, saw) => since <= s.current && saw < ToUint32(r.lvl)
    case PastOverride(r, since, saw, used) => UsedOk(s, since, used) && saw < ToUint32(r.lvl)
    case Missed(r, since, saw, used) => UsedOk(s, since, used) && saw < ToUint32(r.lvl)
    case Finished(_, _, _, _, _) => Justified(s, c)
  }

  ghost predicate Inv(s: State) {
    && !s.panicked && RulesOk(s)
    && (forall id :: id in s.calls ==> CallOk(s, s.calls[id]))
  }

  lemma CallsStay(s: State, s': State, c: Call)
    requires CallOk(s, c) && s.current <= s'.current && s.installs <= s'.installs
    ensures CallOk(s', c)
  {
    if c.Finished? {
      var k :| c.since <= k <= c.until < |s.installs| && c.logged == Verdict(c.saw, s.installs[k], c.r);
      assert s'.installs[k] == s.installs[k];
    }
  }

  /** The scan result decides as the uncached verdict does under the current rules or under
      the ones seen through the flag. */
  lemma ScanJustified(s: State, c: Call, logged: bool)
    requires RulesOk(s) && !s.installing && (c.PastOverride? || c.Missed?) && CallOk(s, c)
    requires logged == (FirstMatch(s.patterns, c.r.site) >= c.r.lvl)
    ensures Justified(s, Finish(s, c, c.saw, logged))
  {
    var last := |s.installs| - 1;
    if s.patterns != [] || c.r.lvl > 0 {
      assert logged == Verdict(c.saw, s.installs[last], c.r);
    } else {
      MatchNotNegative(s.installs[c.used], c.r.site);
      assert logged == Verdict(c.saw, s.installs[c.used], c.r);
    }
  }

  lemma RulesStep(s: State, a: Action)
    requires Inv(s) && Enabled(s, a)
    ensures RulesOk(Next(s, a)) && !Next(s, a).panicked
    ensures s.installs <= Next(s, a).installs && s.current <= Next(s, a).current
  {
    if a.Fill? {
      assert CallOk(s, s.calls[a.id]);
    }
  }

  /** The call that moves. */
  lemma MovedCall(s: State, a: Action)
    requires Inv(s) && Enabled(s, a) && (a.ReadLevel? || a.ReadOverride? || a.Lookup? || a.Fill?)
    ensures a.id in Next(s, a).calls && CallOk(Next(s, a), Next(s, a).calls[a.id])
  {
    var c := s.calls[a.id];
    assert CallOk(s, c);
    if a.ReadLevel? {
      if s.level >= ToUint32(c.r.lvl) {
        assert Verdict(s.level, s.installs[s.current], c.r);
      }
    } else if a.ReadOverride? {
      if !s.override {
        assert !Verdict(c.saw, s.installs[s.current], c.r);
      }
    } else {
      var logged := FirstMatch(s.patterns, c.r.site) >= c.r.lvl;
      ScanJustified(s, c, logged);
      if a.Fill? {
        CallsStay(s, Next(s, a), Finish(s, c, c.saw, logged));
      }
    }
  }

  lemma StepKeeps(s: State, a: Action)
    requires Inv(s) && Enabled(s, a)
    ensures Inv(Next(s, a))
  {
    var s' := Next(s, a);
    RulesStep(s, a);
    forall id | id in s'.calls ensures CallOk(s', s'.calls[id]) {
      if id in s.calls && s'.calls[id] == s.calls[id] {
        CallsStay(s, s', s.calls[id]);
      } else if !a.BeginLog? {
        MovedCall(s, a);
      }
    }
  }

  ghost predicate IsRun(s: State, run: seq<Action>)
    decreases |run|
  {
    run == [] || (Enabled(s, run[0]) && IsRun(Next(s, run[0]), run[1..]))
  }

  ghost function Exec(s: State, run: seq<Action>): State
    requires IsRun(s, run)
    decreases |run|
  {
    if run == [] then s else Exec(Next(s, run[0]), run[1..])
  }

  lemma {:induction false} RunKeeps(s: State, run: seq<Action>)
    requires Inv(s) && IsRun(s, run)
    ensures Inv(Exec(s, run))
    decreases |run|
  {
    if run != [] {
      StepKeeps(s, run[0]);
      RunKeeps(Next(s, run[0]), run[1..]);
    }
  }

  /** In every interleaving the cache agrees with the scan of the current rules, and the nil
      map is never written. */
  lemma CacheAgrees(level: nat, run: seq<Action>, site: Site)
    requires IsRun(Init(level), run)
    ensures var s := Exec(Init(level), run);
      && !s.panicked
      && (s.siteCache.Some? && site in s.siteCache.value ==> s.siteCache.value[site] == FirstMatch(s.patterns, site))
  {
    RunKeeps(Init(level), run);
  }

  /** Every finished call gave the verdict of the plain scan under some rule set that was in
      force between its start and its end. */
  lemma VerdictJustified(level: nat, run: seq<Action>, id: nat)
    requires IsRun(Init(level), run) && id in Exec(Init(level), run).calls
    requires Exec(Init(level), run).calls[id].Finished?
    ensures var s := Exec(Init(level), run); var c := s.calls[id];
      exists k :: c.since <= k <= c.until < |s.installs| && c.logged == Verdict(c.saw, s.installs[k], c.r)
  {
    RunKeeps(Init(level), run);
    var s := Exec(Init(level), run);
    assert CallOk(s, s.calls[id]);
  }

  // ---------- What a call records ----------

  /** The rule sets that a run swaps in, in order. */
  function Filters(run: seq<Action>): seq<Rules> {
    if run == [] then [] else (if run[0].BeginVmodule? then [run[0].filter] else []) + Filters(run[1..])
  }

  /** The level that a run leaves. */
  function LastLevel(level: nat, run: seq<Action>): nat
    decreases |run|
  {
    if run == [] then level else LastLevel(if run[0].SetLevel? then run[0].level else level, run[1..])
  }

  lemma StepSettings(s: State, a: Action)
    requires Enabled(s, a)
    ensures Next(s, a).installs == if a.BeginVmodule? then s.installs + [a.filter] else s.installs
    ensures Next(s, a).level == if a.SetLevel? then a.level else s.level
  {
  }

  lemma InstallsGrow(installs: seq<Rules>, now: seq<Rules>, later: seq<Rules>)
    ensures (installs + now) + later == installs + (now + later)
  {
  }

  lemma {:induction false} RunSettings(s: State, run: seq<Action>)
    requires IsRun(s, run)
    ensures Exec(s, run).installs == s.installs + Filters(run)
    ensures Exec(s, run).level == LastLevel(s.level, run)
    decreases |run|
  {
    if run != [] {
      StepSettings(s, run[0]);
      RunSettings(Next(s, run[0]), run[1..]);
      InstallsGrow(s.installs, if run[0].BeginVmodule? then [run[0].filter] else [], Filters(run[1..]));
    }
  }

  /** A later state of a call: what it has recorded stays. */
  predicate GoesOn(c: Call, c': Call) {
    && c'.r == c.r && c'.since == c.since
    && (!c.Started? ==> !c'.Started? && c'.saw == c.saw)
    && (c.Finished? ==> c' == c)
  }

  lemma {:induction false} CallGoesOn(s: State, run: seq<Action>, id: nat)
    requires IsRun(s, run) && id in s.calls
    ensures id in Exec(s, run).calls && GoesOn(s.calls[id], Exec(s, run).calls[id])
    decreases |run|
  {
    if run != [] {
      CallGoesOn(Next(s, run[0]), run[1..], id);
    }
  }

  /** A call keeps its record, began under the newest rules whose Vmodule had finished, and
      was judged by the level in force when it read it. */
  lemma CallRecords(level: nat, before: seq<Action>, id: nat, r: Record, between: seq<Action>, after: seq<Action>)
    requires IsRun(Init(level), before) && Enabled(Exec(Init(level), before), BeginLog(id, r))
    requires var s1 := Next(Exec(Init(level), before), BeginLog(id, r));
      && IsRun(s1, between) && Enabled(Exec(s1, between), ReadLevel(id))
      && IsRun(Next(Exec(s1, between), ReadLevel(id)), after)
    ensures var s0 := Exec(Init(level), before);
      var s2 := Exec(Next(s0, BeginLog(id, r)), between);
      var end := Exec(Next(s2, ReadLevel(id)), after);
      && id in end.calls && !end.calls[id].Started?
      && end.calls[id].r == r && end.calls[id].since == s0.current && end.calls[id].saw == s2.level
      && s2.level == LastLevel(LastLevel(level, before), between)
  {
    var s0 := Exec(Init(level), before);
    var s1 := Next(s0, BeginLog(id, r));
    var s2 := Exec(s1, between);
    CallGoesOn(s1, between, id);
    CallGoesOn(Next(s2, ReadLevel(id)), after, id);
    RunSettings(Init(level), before);
    RunSettings(s1, between);
  }
}
