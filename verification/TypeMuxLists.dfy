/** The subscription lists of TypeMux (event/event.go). Every change of a list allocates a
    new array, so a list that a Post is iterating is never written again. */
module TypeMuxLists {
  import opened Seqs

  type Type = nat
  type Sub = nat
  type Lists = map<Type, seq<Sub>>

  function ListOf(m: Lists, t: Type): seq<Sub> {
    if t in m then m[t] else []
  }

  predicate Listed(m: Lists, s: Sub) {
    exists t :: t in m && s in m[t]
  }

  ghost predicate ListsOk(m: Lists) {
    forall t :: t in m ==> m[t] != [] && NoDup(m[t])
  }

  /** The list without s, the others in their old order. */
  function Without(q: seq<Sub>, s: Sub): (r: seq<Sub>)
    ensures forall x :: x in r <==> x in q && x != s
  {
    if q == [] then [] else
    var rest := Without(q[1..], s);
    assert forall x :: x in q <==> x == q[0] || x in q[1..];
    if q[0] == s then rest else [q[0]] + rest
  }

  lemma {:induction false} WithoutAbsent(q: seq<Sub>, s: Sub)
    requires s !in q
    ensures Without(q, s) == q
  {
    if q != [] {
      WithoutAbsent(q[1..], s);
    }
  }

  /** posdelete at the position that find returns is Without, on lists without repeats. */
  lemma {:induction false} WithoutOnce(q: seq<Sub>, k: nat)
    requires k < |q| && NoDup(q)
    ensures Without(q, q[k]) == RemoveAt(q, k)
  {
    if k == 0 {
      assert q[0] !in q[1..];
      WithoutAbsent(q[1..], q[0]);
    } else {
      assert q[1..][k - 1] == q[k] && q[0] != q[k];
      WithoutOnce(q[1..], k - 1);
      assert RemoveAt(q, k) == [q[0]] + RemoveAt(q[1..], k - 1);
    }
  }

  /** mux.subm after del(s): a type whose list becomes empty is deleted. */
  function Removed(m: Lists, s: Sub): (r: Lists) {
    map t | t in m && Without(m[t], s) != [] :: Without(m[t], s)
  }

  /** mux.subm after the types were added one by one, up to the first repeated one. */
  function Added(m: Lists, types: seq<Type>, s: Sub): (r: Lists)
    decreases |types|
  {
    if types == [] || s in ListOf(m, types[0]) then m
    else Added(m[types[0] := ListOf(m, types[0]) + [s]], types[1..], s)
  }

  lemma WithoutNoDup(q: seq<Sub>, s: Sub)
    requires NoDup(q)
    ensures NoDup(Without(q, s))
  {
    if s in q {
      var k :| 0 <= k < |q| && q[k] == s;
      WithoutOnce(q, k);
    } else {
      WithoutAbsent(q, s);
    }
  }

  /** After del the subscription is in no list and nobody else's place has changed. */
  lemma RemovedSpec(m: Lists, s: Sub)
    requires ListsOk(m)
    ensures ListsOk(Removed(m, s)) && !Listed(Removed(m, s), s)
    ensures forall t :: ListOf(Removed(m, s), t) == Without(ListOf(m, t), s)
    ensures forall x :: x != s ==> (Listed(Removed(m, s), x) <==> Listed(m, x))
  {
    forall t | t in m && Without(m[t], s) != [] ensures NoDup(Without(m[t], s)) {
      WithoutNoDup(m[t], s);
    }
    forall x | x != s && Listed(m, x) ensures Listed(Removed(m, s), x) {
      var t :| t in m && x in m[t];
      assert x in Without(m[t], s);
      assert t in Removed(m, s);
    }
  }

  lemma {:induction false} AddedKeeps(m: Lists, types: seq<Type>, s: Sub, t: Type)
    requires s in ListOf(m, t)
    ensures t in Added(m, types, s) && Added(m, types, s)[t] == ListOf(m, t)
    decreases |types|
  {
    if types != [] && s !in ListOf(m, types[0]) {
      AddedKeeps(m[types[0] := ListOf(m, types[0]) + [s]], types[1..], s, t);
    }
  }

  lemma {:induction false} AddedAt(m: Lists, types: seq<Type>, s: Sub, t: Type)
    ensures ListOf(Added(m, types, s), t) == ListOf(m, t) ||
            (s !in ListOf(m, t) && t in types && ListOf(Added(m, types, s), t) == ListOf(m, t) + [s])
    decreases |types|
  {
    if types != [] && s !in ListOf(m, types[0]) {
      var m' := m[types[0] := ListOf(m, types[0]) + [s]];
      if t == types[0] {
        AddedKeeps(m', types[1..], s, t);
      } else {
        AddedAt(m', types[1..], s, t);
        assert ListOf(m', t) == ListOf(m, t);
      }
    }
  }

  lemma OneAddedOk(m: Lists, t: Type, s: Sub)
    requires ListsOk(m) && s !in ListOf(m, t)
    ensures ListsOk(m[t := ListOf(m, t) + [s]])
  {
  }

  lemma {:induction false} AddedOk(m: Lists, types: seq<Type>, s: Sub)
    requires ListsOk(m)
    ensures ListsOk(Added(m, types, s))
    decreases |types|
  {
    if types != [] && s !in ListOf(m, types[0]) {
      OneAddedOk(m, types[0], s);
      AddedOk(m[types[0] := ListOf(m, types[0]) + [s]], types[1..], s);
    }
  }

  /** Subscribe puts the new subscription at the end of each list it names, keeps all
      others, and stops at the first repeated type. */
  lemma AddedSpec(m: Lists, types: seq<Type>, s: Sub)
    requires ListsOk(m)
    ensures ListsOk(Added(m, types, s))
    ensures forall t :: ListOf(Added(m, types, s), t) == ListOf(m, t) || (s !in ListOf(m, t)
                        && t in types && ListOf(Added(m, types, s), t) == ListOf(m, t) + [s])
  {
    AddedOk(m, types, s);
    forall t ensures ListOf(Added(m, types, s), t) == ListOf(m, t) ||
                     (s !in ListOf(m, t) && t in types && ListOf(Added(m, types, s), t) == ListOf(m, t) + [s]) {
      AddedAt(m, types, s, t);
    }
  }

  ghost predicate Repeats(types: seq<Type>) {
    exists i, j :: 0 <= i < j < |types| && types[i] == types[j]
  }

  /** The loop over the types comes to t: it is named, and no type up to it was named before. */
  ghost predicate Reaches(seen: seq<Type>, types: seq<Type>, t: Type) {
    exists k :: 0 <= k < |types| && types[k] == t && !Repeats(seen + types[..k + 1])
  }

  lemma ReachesFirst(seen: seq<Type>, types: seq<Type>)
    requires types != [] && types[0] !in seen && !Repeats(seen)
    ensures !Repeats(seen + [types[0]]) && Reaches(seen, types, types[0])
  {
    assert types[..0 + 1] == [types[0]];
  }

  lemma ReachesNothing(seen: seq<Type>, types: seq<Type>, t: Type)
    requires types == [] || types[0] in seen
    ensures !Reaches(seen, types, t)
  {
    forall k | 0 <= k < |types| && types[k] == t ensures Repeats(seen + types[..k + 1]) {
      var i :| 0 <= i < |seen| && seen[i] == types[0];
      var q := seen + types[..k + 1];
      assert q[i] == q[|seen|];
    }
  }

  lemma ReachesRest(seen: seq<Type>, types: seq<Type>, t: Type)
    requires types != [] && t != types[0]
    ensures Reaches(seen, types, t) <==> Reaches(seen + [types[0]], types[1..], t)
  {
    var more, rest := seen + [types[0]], types[1..];
    assert forall k :: 0 < k < |types| ==> seen + types[..k + 1] == more + rest[..k - 1 + 1] && types[k] == rest[k - 1];
    if Reaches(seen, types, t) {
      var k :| 0 <= k < |types| && types[k] == t && !Repeats(seen + types[..k + 1]);
      assert rest[k - 1] == t && !Repeats(more + rest[..k - 1 + 1]);
    }
    if Reaches(more, rest, t) {
      var k :| 0 <= k < |rest| && rest[k] == t && !Repeats(more + rest[..k + 1]);
      assert types[k + 1] == t && seen + types[..k + 1 + 1] == more + rest[..k + 1];
    }
  }

  lemma {:induction false} AddedFrom(m: Lists, seen: seq<Type>, types: seq<Type>, s: Sub, t: Type)
    requires !Repeats(seen) && forall x :: s in ListOf(m, x) <==> x in seen
    ensures ListOf(Added(m, types, s), t) == ListOf(m, t) + if Reaches(seen, types, t) then [s] else []
    decreases |types|
  {
    if types == [] || s in ListOf(m, types[0]) {
      ReachesNothing(seen, types, t);
    } else {
      var m' := m[types[0] := ListOf(m, types[0]) + [s]];
      ReachesFirst(seen, types);
      if t == types[0] {
        AddedKeeps(m', types[1..], s, t);
      } else {
        AddedFrom(m', seen + [types[0]], types[1..], s, t);
        ReachesRest(seen, types, t);
      }
    }
  }

  /** Subscribe appends a new subscription to exactly the lists that its loop reaches; if no
      type is named twice, these are the lists of all the types named. */
  lemma AddedExactly(m: Lists, types: seq<Type>, s: Sub, t: Type)
    requires !Listed(m, s)
    ensures ListOf(Added(m, types, s), t) == ListOf(m, t) + if Reaches([], types, t) then [s] else []
    ensures !Repeats(types) ==> (Reaches([], types, t) <==> t in types)
  {
    forall x ensures s !in ListOf(m, x) {
      assert x in m && s in m[x] ==> Listed(m, s);
    }
    AddedFrom(m, [], types, s, t);
    if !Repeats(types) && t in types {
      var k :| 0 <= k < |types| && types[k] == t;
      assert [] + types[..k + 1] == types[..k + 1];
    }
  }

  lemma ListedAfterAdd(m: Lists, t: Type, s: Sub, x: Sub)
    requires x != s
    ensures Listed(m[t := ListOf(m, t) + [s]], x) <==> Listed(m, x)
  {
    var m' := m[t := ListOf(m, t) + [s]];
    if Listed(m, x) {
      var y :| y in m && x in m[y];
      assert y in m' && x in m'[y];
    }
    if Listed(m', x) {
      var y :| y in m' && x in m'[y];
      assert y in m && x in m[y];
    }
  }

  /** Who is listed after Subscribe: everyone from before, and the new one if it has a type. */
  lemma {:induction false} AddedListed(m: Lists, types: seq<Type>, s: Sub, x: Sub)
    ensures x != s ==> (Listed(Added(m, types, s), x) <==> Listed(m, x))
    ensures x == s && types != [] ==> Listed(Added(m, types, s), x)
    decreases |types|
  {
    if types != [] {
      if s in ListOf(m, types[0]) {
        assert types[0] in m && s in m[types[0]];
      } else {
        var m' := m[types[0] := ListOf(m, types[0]) + [s]];
        if x != s {
          ListedAfterAdd(m, types[0], s, x);
          AddedListed(m', types[1..], s, x);
        } else {
          AddedKeeps(m', types[1..], s, types[0]);
          assert s in Added(m, types, s)[types[0]];
        }
      }
    }
  }

  method Find(slice: array<Sub>, item: Sub) returns (r: int)
    ensures -1 <= r < slice.Length
    ensures r >= 0 ==> slice[r] == item
    ensures r == -1 ==> item !in slice[..]
  {
    for i := 0 to slice.Length
      invariant item !in slice[..i]
    {
      if slice[i] == item {
        return i;
      }
    }
    assert slice[..slice.Length] == slice[..];
    return -1;
  }

  method PosDelete(slice: array<Sub>, pos: nat) returns (news: array<Sub>)
    requires pos < slice.Length
    ensures fresh(news) && news[..] == RemoveAt(slice[..], pos)
  {
    news := new Sub[slice.Length - 1](_ => 0);
    forall i | 0 <= i < pos {
      news[i] := slice[i];
    }
    forall i | pos <= i < slice.Length - 1 {
      news[i] := slice[i + 1];
    }
  }

  method Append(olds: seq<Sub>, s: Sub) returns (news: array<Sub>)
    ensures fresh(news) && news[..] == olds + [s]
  {
    news := new Sub[|olds| + 1](i requires 0 <= i => if i < |olds| then olds[i] else s);
  }

  datatype Outcome = Registered | HandedOutClosed | Panicked

  ghost predicate OnlyIn(m: Lists, types: seq<Type>, s: Sub) {
    forall t :: s in ListOf(m, t) <==> t in types
  }

  lemma OnlyInStep(m: Lists, types: seq<Type>, i: nat, s: Sub)
    requires i < |types| && OnlyIn(m, types[..i], s) && !Repeats(types[..i])
    ensures s in ListOf(m, types[i]) ==> Repeats(types)
    ensures s !in ListOf(m, types[i]) ==>
      !Repeats(types[..i + 1]) && OnlyIn(m[types[i] := ListOf(m, types[i]) + [s]], types[..i + 1], s)
  {
    var t := types[i];
    if s in ListOf(m, t) {
      var k :| 0 <= k < i && types[..i][k] == t;
      assert types[k] == types[i];
    } else {
      assert types[..i + 1] == types[..i] + [t];
      var m' := m[t := ListOf(m, t) + [s]];
      forall x ensures s in ListOf(m', x) <==> x in types[..i + 1] {
        assert s in ListOf(m, x) <==> x in types[..i];
      }
    }
  }

  ghost function AfterDel(m: Lists, t: Type, q: seq<Sub>): Lists {
    if q == [] then m - {t} else m[t := q]
  }

  /** Half way through del: the types in `todo` are still to come. */
  ghost function PartlyRemoved(m: Lists, todo: set<Type>, s: Sub): Lists {
    map t | t in m && (t in todo || Without(m[t], s) != []) :: if t in todo then m[t] else Without(m[t], s)
  }

  lemma PartlyOk(m: Lists, todo: set<Type>, s: Sub)
    requires ListsOk(m)
    ensures ListsOk(PartlyRemoved(m, todo, s))
  {
    var p := PartlyRemoved(m, todo, s);
    forall t | t in p ensures p[t] != [] && NoDup(p[t]) {
      WithoutNoDup(m[t], s);
    }
  }

  lemma PartlyStep(m: Lists, todo: set<Type>, s: Sub, t: Type)
    requires t in todo && t in m
    ensures var p := PartlyRemoved(m, todo, s); var q := Without(m[t], s);
      && t in p && p[t] == m[t]
      && PartlyRemoved(m, todo - {t}, s) == AfterDel(p, t, q)
  {
  }

  lemma PartlyEnds(m: Lists, s: Sub)
    requires ListsOk(m)
    ensures PartlyRemoved(m, m.Keys, s) == m
    ensures PartlyRemoved(m, {}, s) == Removed(m, s) && ListsOk(Removed(m, s))
  {
    RemovedSpec(m, s);
  }

  class TypeMux {
    var subm: map<Type, array<Sub>>
    var stopped: bool

    ghost function Contents(): (m: Lists)
      reads this, set t | t in subm :: subm[t]
    {
      map t | t in subm :: subm[t][..]
    }

    ghost predicate Valid()
      reads this, set t | t in subm :: subm[t]
    {
      ListsOk(Contents())
    }

    constructor ()
      ensures Valid() && Contents() == map[] && !stopped
    {
      subm := map[];
      stopped := false;
    }

    /** Subscribe for the newly made subscription s. A repeated type panics in the source
        and leaves the earlier ones registered; on a stopped mux the subscription is handed
        out closed and in no list. */
    method Subscribe(types: seq<Type>, s: Sub) returns (r: Outcome)
      requires Valid() && !Listed(Contents(), s)
      modifies this`subm
      ensures Valid()
      ensures stopped ==> r == HandedOutClosed && Contents() == old(Contents())
      ensures !stopped ==> Contents() == Added(old(Contents()), types, s)
      ensures !stopped ==> r == if Repeats(types) then Panicked else Registered
      ensures forall t :: t in old(subm) ==> old(subm)[t][..] == old(subm[t][..])
    {
      if stopped {
        return HandedOutClosed;
      }
      AddedSpec(Contents(), types, s);
      var repeated := RegisterAll(types, s);
      return if repeated then Panicked else Registered;
    }

    /** The loop of Subscribe; it stops at a repeated type. */
    method RegisterAll(types: seq<Type>, s: Sub) returns (repeated: bool)
      requires !Listed(Contents(), s)
      modifies this`subm
      ensures Contents() == Added(old(Contents()), types, s) && repeated == Repeats(types)
      ensures forall t :: t in old(subm) ==> old(subm)[t][..] == old(subm[t][..])
    {
      ghost var m0 := Contents();
      for i := 0 to |types|
        invariant Added(Contents(), types[i..], s) == Added(m0, types, s)
        invariant OnlyIn(Contents(), types[..i], s) && !Repeats(types[..i])
        invariant forall t :: t in old(subm) ==> old(subm)[t][..] == old(subm[t][..])
      {
        OnlyInStep(Contents(), types, i, s);
        assert types[i..][0] == types[i] && types[i..][1..] == types[i + 1..];
        repeated := RegisterOne(types[i], s);
        if repeated {
          return;
        }
      }
      assert types[..|types|] == types;
      return false;
    }

    /** One turn of the loop of Subscribe. */
    method RegisterOne(t: Type, s: Sub) returns (repeated: bool)
      modifies this`subm
      ensures repeated <==> s in ListOf(old(Contents()), t)
      ensures repeated ==> Contents() == old(Contents())
      ensures !repeated ==> Contents() == old(Contents())[t := ListOf(old(Contents()), t) + [s]]
      ensures forall t :: t in old(subm) ==> old(subm)[t][..] == old(subm[t][..])
    {
      ghost var m := Contents();
      var olds := [];
      if t in subm {
        olds := subm[t][..];
        var pos := Find(subm[t], s);
        if pos != -1 {
          return true;
        }
      }
      assert olds == ListOf(m, t);
      var subs := Append(olds, s);
      subm := subm[t := subs];
      assert Contents() == m[t := olds + [s]];
      return false;
    }

    method SetList(t: Type, news: array<Sub>)
      modifies this`subm
      ensures subm == old(subm)[t := news] && Contents() == old(Contents())[t := news[..]]
    {
      subm := subm[t := news];
    }

    method UnsetList(t: Type)
      modifies this`subm
      ensures subm == old(subm) - {t} && Contents() == old(Contents()) - {t}
    {
      subm := subm - {t};
    }

    /** del for one type. */
    method DelFrom(t: Type, s: Sub)
      requires t in subm && NoDup(subm[t][..]) && subm[t].Length > 0
      modifies this`subm
      ensures Contents() == AfterDel(old(Contents()), t, Without(old(subm[t][..]), s))
      ensures forall t :: t in old(subm) ==> old(subm)[t][..] == old(subm[t][..])
    {
      var subs := subm[t];
      var pos := Find(subs, s);
      if pos >= 0 {
        WithoutOnce(subs[..], pos);
        if subs.Length == 1 {
          UnsetList(t);
        } else {
          ghost var m := Contents();
          var news := PosDelete(subs, pos);
          assert Contents() == m;
          SetList(t, news);
        }
      } else {
        WithoutAbsent(subs[..], s);
        assert Contents() == Contents()[t := subs[..]];
      }
    }

    method Del(s: Sub)
      requires Valid()
      modifies this`subm
      ensures Valid() && Contents() == Removed(old(Contents()), s)
      ensures forall t :: t in old(subm) ==> old(subm)[t][..] == old(subm[t][..])
    {
      ghost var m := Contents();
      var todo := subm.Keys;
      PartlyEnds(m, s);
      while todo != {}
        invariant todo <= m.Keys && ListsOk(m)
        invariant Contents() == PartlyRemoved(m, todo, s)
        invariant forall t :: t in old(subm) ==> old(subm)[t][..] == old(subm[t][..])
        decreases |todo|
      {
        var t :| t in todo;
        PartlyOk(m, todo, s);
        PartlyStep(m, todo, s, t);
        assert Contents()[t] == subm[t][..];
        DelFrom(t, s);
        todo := todo - {t};
      }
      PartlyEnds(m, s);
    }
  }
}
