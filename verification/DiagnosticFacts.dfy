/** The builder that keeps the most telling facts about an issue. */
module DiagnosticFacts {
  import opened Ordering
  import opened Issues

  /** `Unranked` is any other label; the empty one is a builder that was told nothing yet. */
  datatype Role = Candidate | Affected | Rollup | Context | Unranked(name: string)

  datatype Fact = Fact(kind: string, message: string, refs: seq<Ref>)

  datatype Offer = Offer(role: Role, fact: Fact)

  /** A fact as the builder stores it. */
  datatype Ranked = Ranked(rank: nat, fact: Fact)

  datatype DiagnosticContext = DiagnosticContext(role: Role, facts: seq<Fact>)

  const MAX_FACTS := 4

  function RoleRank(r: Role): nat {
    match r
    case Candidate => 4
    case Affected => 3
    case Rollup => 2
    case Context => 1
    case Unranked(_) => 0
  }

  function RankedOffer(o: Offer): Ranked {
    Ranked(RoleRank(o.role), o.fact)
  }

  function AllRanked(offers: seq<Offer>): (s: seq<Ranked>)
    ensures |s| == |offers| && forall k :: 0 <= k < |offers| ==> s[k] == RankedOffer(offers[k])
  {
    seq(|offers|, k requires 0 <= k < |offers| => RankedOffer(offers[k]))
  }

  /** How many facts rank r or higher. */
  function CountFrom(s: seq<Ranked>, r: nat): nat {
    if s == [] then 0
    else CountFrom(s[..|s| - 1], r) + if s[|s| - 1].rank >= r then 1 else 0
  }

  function Min(a: nat, b: nat): nat {
    if a < b then a else b
  }

  /** `held` ranks like the best four of `all`: at every rank the held facts from there up are
      all there are, or four. */
  ghost predicate RanksBest(held: seq<Ranked>, all: seq<Ranked>) {
    forall r: nat :: CountFrom(held, r) == Min(MAX_FACTS, CountFrom(all, r))
  }

  ghost predicate Drawn(held: seq<Ranked>, all: seq<Ranked>) {
    multiset(held) <= multiset(all)
  }

  ghost predicate IsBest(held: seq<Ranked>, all: seq<Ranked>) {
    Drawn(held, all) && RanksBest(held, all)
  }

  /** A role of the highest rank among those offered. */
  ghost predicate IsHighest(role: Role, offers: seq<Offer>) {
    && (forall o :: o in offers ==> RoleRank(o.role) <= RoleRank(role))
    && (role == Unranked("") || exists o :: o in offers && o.role == role)
  }

  // Counting.

  lemma CountSnoc(s: seq<Ranked>, x: Ranked, r: nat)
    ensures CountFrom(s + [x], r) == CountFrom(s, r) + if x.rank >= r then 1 else 0
  {
    assert (s + [x])[..|s|] == s;
  }

  lemma {:induction false} CountBounds(s: seq<Ranked>, r: nat)
    ensures CountFrom(s, r) <= |s|
    ensures CountFrom(s, r) == |s| <==> forall k :: 0 <= k < |s| ==> s[k].rank >= r
  {
    if s != [] {
      CountBounds(s[..|s| - 1], r);
    }
  }

  lemma {:induction false} CountReplaced(s: seq<Ranked>, i: nat, x: Ranked, r: nat)
    requires i < |s|
    ensures CountFrom(s[i := x], r) + (if s[i].rank >= r then 1 else 0) ==
            CountFrom(s, r) + if x.rank >= r then 1 else 0
  {
    var n := |s| - 1;
    if i == n {
      assert s[i := x][..n] == s[..n];
    } else {
      CountReplaced(s[..n], i, x, r);
      assert s[i := x][..n] == s[..n][i := x];
    }
  }

  lemma {:induction false} CountMembers(s: seq<Ranked>, r: nat)
    ensures CountFrom(s, r) == CountFrom(s, r + 1) + multiset(Ranks(s))[r]
  {
    if s != [] {
      var n := |s| - 1;
      CountMembers(s[..n], r);
      assert Ranks(s) == Ranks(s[..n]) + [s[n].rank];
    }
  }

  function Ranks(s: seq<Ranked>): (ranks: seq<nat>)
    ensures |ranks| == |s| && forall k :: 0 <= k < |s| ==> ranks[k] == s[k].rank
  {
    seq(|s|, k requires 0 <= k < |s| => s[k].rank)
  }

  lemma {:induction false} CountWithout(s: seq<Ranked>, i: nat, r: nat)
    requires i < |s|
    ensures CountFrom(s, r) == CountFrom(s[..i] + s[i + 1..], r) + if s[i].rank >= r then 1 else 0
  {
    var n := |s| - 1;
    if i == n {
      assert s[..i] + s[i + 1..] == s[..n];
    } else {
      CountWithout(s[..n], i, r);
      assert (s[..i] + s[i + 1..])[..n - 1] == s[..n][..i] + s[..n][i + 1..];
    }
  }

  lemma {:induction false} DrawnCountsLess(part: seq<Ranked>, all: seq<Ranked>, r: nat)
    requires Drawn(part, all)
    ensures CountFrom(part, r) <= CountFrom(all, r)
    decreases |part|
  {
    if part != [] {
      var n, x := |part| - 1, part[|part| - 1];
      assert x in multiset(part);
      assert x in multiset(all);
      var i :| 0 <= i < |all| && all[i] == x;
      RemoveAt(all, i);
      RemoveAt(part, n);
      assert part[..n] + part[n + 1..] == part[..n];
      DrawnCountsLess(part[..n], all[..i] + all[i + 1..], r);
      CountWithout(all, i, r);
    }
  }

  // One more offer.

  lemma AppendKeepsBest(held: seq<Ranked>, all: seq<Ranked>, x: Ranked)
    requires IsBest(held, all) && |held| < MAX_FACTS
    ensures IsBest(held + [x], all + [x])
  {
    forall r: nat ensures CountFrom(held + [x], r) == Min(MAX_FACTS, CountFrom(all + [x], r)) {
      CountSnoc(held, x, r);
      CountSnoc(all, x, r);
      CountBounds(held, r);
    }
  }

  lemma SkipKeepsBest(held: seq<Ranked>, all: seq<Ranked>, x: Ranked)
    requires IsBest(held, all) && |held| == MAX_FACTS
    requires forall k :: 0 <= k < |held| ==> held[k].rank >= x.rank
    ensures IsBest(held, all + [x])
  {
    forall r: nat ensures CountFrom(held, r) == Min(MAX_FACTS, CountFrom(all + [x], r)) {
      CountSnoc(all, x, r);
      CountBounds(held, r);
    }
  }

  lemma ReplaceKeepsBest(held: seq<Ranked>, all: seq<Ranked>, i: nat, x: Ranked)
    requires IsBest(held, all) && |held| == MAX_FACTS && i < |held| && held[i].rank < x.rank
    requires forall k :: 0 <= k < |held| ==> held[k].rank >= held[i].rank
    ensures IsBest(held[i := x], all + [x])
  {
    forall r: nat ensures CountFrom(held[i := x], r) == Min(MAX_FACTS, CountFrom(all + [x], r)) {
      CountSnoc(all, x, r);
      CountReplaced(held, i, x, r);
      CountBounds(held, r);
    }
    ReplaceKeepsDrawn(held, all, i, x);
  }

  lemma ReplaceKeepsDrawn(held: seq<Ranked>, all: seq<Ranked>, i: nat, x: Ranked)
    requires Drawn(held, all) && i < |held|
    ensures Drawn(held[i := x], all + [x])
  {
    assert held == held[..i] + [held[i]] + held[i + 1..];
    assert held[i := x] == held[..i] + [x] + held[i + 1..];
    assert multiset(held[i := x]) == multiset(held) - multiset{held[i]} + multiset{x};
  }

  ghost predicate FirstLowest(ranks: seq<nat>, i: int) {
    0 <= i < |ranks| && forall k :: 0 <= k < |ranks| ==> ranks[k] >= ranks[i] && (k < i ==> ranks[k] > ranks[i])
  }

  class FactBuilder {
    var role: Role
    var facts: seq<Fact>
    var factRanks: seq<nat>
    ghost var accepted: seq<Offer>

    constructor ()
      ensures Valid() && accepted == [] && facts == []
    {
      role, facts, factRanks, accepted := Unranked(""), [], [], [];
    }

    ghost predicate Shaped()
      reads this
    {
      |facts| == |factRanks| <= MAX_FACTS
    }

    ghost function Held(): (s: seq<Ranked>)
      reads this
      requires Shaped()
      ensures |s| == |facts|
    {
      seq(|facts|, k requires 0 <= k < |facts| reads this requires Shaped() => Ranked(factRanks[k], facts[k]))
    }

    /** The builder holds four facts that no other accepted fact outranks, and the highest role. */
    ghost predicate Valid()
      reads this
    {
      Shaped() && IsBest(Held(), AllRanked(accepted)) && IsHighest(role, accepted)
    }

    /** Every fact with a type counts as accepted, whether or not there is room for it. */
    method Add(r: Role, fact: Fact)
      requires Valid()
      modifies this
      ensures Valid()
      ensures accepted == if fact.kind == "" then old(accepted) else old(accepted) + [Offer(r, fact)]
      ensures fact.kind == "" ==> role == old(role) && facts == old(facts)
      ensures fact.kind != "" && |old(facts)| < MAX_FACTS ==> facts == old(facts) + [fact]
      ensures fact.kind != "" && |old(facts)| == MAX_FACTS ==>
                forall i :: FirstLowest(old(factRanks), i) ==>
                  facts == if old(factRanks)[i] < RoleRank(r) then old(facts)[i := fact] else old(facts)
    {
      hide CountFrom, RanksBest, Drawn;
      if fact.kind == "" {
        return;
      }
      var rank := RoleRank(r);
      ghost var held, x := Held(), Ranked(rank, fact);
      ghost var all := AllRanked(accepted);
      accepted := accepted + [Offer(r, fact)];
      assert AllRanked(accepted) == all + [x];
      if rank > RoleRank(role) {
        role := r;
      }
      if |facts| >= MAX_FACTS {
        var replace := Weakest(factRanks, rank);
        if replace < 0 {
          SkipKeepsBest(held, all, x);
          assert Held() == held;
          return;
        }
        ReplaceKeepsBest(held, all, replace, x);
        facts := facts[replace := fact];
        factRanks := factRanks[replace := rank];
        assert Held() == held[replace := x];
        return;
      }
      AppendKeepsBest(held, all, x);
      facts := facts + [fact];
      factRanks := factRanks + [rank];
      assert Held() == held + [x];
    }

    method Build() returns (c: Option<DiagnosticContext>)
      requires Valid()
      ensures c.None? <==> accepted == []
      ensures c.Some? ==> c.value == DiagnosticContext(role, facts) && |facts| == Min(MAX_FACTS, |accepted|)
      ensures c.Some? ==> forall f :: f in c.value.facts ==> exists o :: o in accepted && o.fact == f
    {
      HeldCount();
      if |facts| == 0 {
        return None;
      }
      forall k | 0 <= k < |facts| ensures exists o :: o in accepted && o.fact == facts[k] {
        assert Held()[k] in multiset(Held());
        assert Held()[k] in AllRanked(accepted);
      }
      return Some(DiagnosticContext(role, facts));
    }

    lemma HeldCount()
      requires Valid()
      ensures |facts| == Min(MAX_FACTS, |accepted|)
    {
      CountBounds(Held(), 0);
      CountBounds(AllRanked(accepted), 0);
      assert CountFrom(Held(), 0) == Min(MAX_FACTS, CountFrom(AllRanked(accepted), 0));
    }
  }

  /** The first of the lowest ranks, if it is below `rank`; -1 otherwise. */
  method Weakest(ranks: seq<nat>, rank: nat) returns (replace: int)
    ensures -1 <= replace < |ranks|
    ensures replace < 0 <==> forall k :: 0 <= k < |ranks| ==> ranks[k] >= rank
    ensures replace >= 0 ==> FirstLowest(ranks, replace) && ranks[replace] < rank
  {
    replace := -1;
    var lowest := rank;
    for idx := 0 to |ranks|
      invariant -1 <= replace < idx && lowest <= rank
      invariant if replace < 0 then lowest == rank else lowest == ranks[replace] < rank
      invariant forall k :: 0 <= k < idx ==> ranks[k] >= lowest && (k < replace ==> ranks[k] > lowest)
    {
      if ranks[idx] < lowest {
        lowest, replace := ranks[idx], idx;
      }
    }
  }

  /** No accepted fact that was left out outranks one that was kept. */
  lemma LeftOutRanksLower(held: seq<Ranked>, all: seq<Ranked>, x: Ranked, y: Ranked)
    requires IsBest(held, all) && x in held && y in multiset(all) - multiset(held)
    ensures y.rank <= x.rank
  {
    if y.rank > x.rank {
      var r := y.rank;
      CountBounds(held, r);
      CountBounds(held, 0);
      assert CountFrom(held, r) < |held| <= MAX_FACTS;
      assert CountFrom(held, r) == CountFrom(all, r);
      assert Drawn(held + [y], all);
      DrawnCountsLess(held + [y], all, r);
      CountSnoc(held, y, r);
    }
  }

  /** Main result: whatever the order of the offers, the ranks held are the same. */
  lemma HeldRanksIgnoreOrder(held: seq<Ranked>, all: seq<Ranked>, held': seq<Ranked>, all': seq<Ranked>)
    requires IsBest(held, all) && IsBest(held', all') && multiset(all) == multiset(all')
    ensures multiset(Ranks(held)) == multiset(Ranks(held'))
  {
    forall r: nat ensures multiset(Ranks(held))[r] == multiset(Ranks(held'))[r] {
      DrawnCountsLess(all, all', r);
      DrawnCountsLess(all', all, r);
      DrawnCountsLess(all, all', r + 1);
      DrawnCountsLess(all', all, r + 1);
      CountMembers(held, r);
      CountMembers(held', r);
      assert CountFrom(held, r) == CountFrom(held', r) && CountFrom(held, r + 1) == CountFrom(held', r + 1);
    }
  }
}
