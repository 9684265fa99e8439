/** Splitting the vault's capital across agents in proportion to their weights. */
module Allocator {
  import opened Wrappers
  import opened Decimals
  import opened Collections

  datatype Allocation = Allocation(agentId: string, weight: real, amount: real)

  datatype AllocateError = NegativeCapital | NegativeWeight

  /* ----- the order of agent names ----- */

  /** Byte-wise order of names: the first difference decides, and a prefix comes first. */
  predicate Before(a: string, b: string) {
    b != [] && (a == [] || a[0] < b[0] || (a[0] == b[0] && Before(a[1..], b[1..])))
  }

  lemma {:induction false} OrderIsTotal(a: string, b: string)
    ensures a == b || Before(a, b) || Before(b, a)
  {
    if a != [] && b != [] && a[0] == b[0] {
      OrderIsTotal(a[1..], b[1..]);
      assert a == [a[0]] + a[1..] && b == [b[0]] + b[1..];
    }
  }

  lemma {:induction false} OrderIsTransitive(a: string, b: string, c: string)
    requires Before(a, b) && Before(b, c)
    ensures Before(a, c)
  {
    if a != [] && a[0] == b[0] == c[0] {
      OrderIsTransitive(a[1..], b[1..], c[1..]);
    }
  }

  lemma {:induction false} OrderIsStrict(a: string)
    ensures !Before(a, a)
  {
    if a != [] {
      OrderIsStrict(a[1..]);
    }
  }

  ghost predicate Ascending(s: seq<Allocation>) {
    forall i, j | 0 <= i < j < |s| :: Before(s[i].agentId, s[j].agentId)
  }

  /* ----- the weights ----- */

  /** The sum of all weights; the order of summation does not matter. */
  ghost function Total(weights: map<string, real>): real {
    if weights == map[] then 0.0 else
      var id :| id in weights;
      weights[id] + Total(weights - {id})
  }

  lemma {:induction false} TotalFrom(weights: map<string, real>, id: string)
    requires id in weights
    ensures Total(weights) == weights[id] + Total(weights - {id})
    decreases |weights|
  {
    var first :| first in weights && Total(weights) == weights[first] + Total(weights - {first});
    if first != id {
      TotalFrom(weights - {first}, id);
      TotalFrom(weights - {id}, first);
      assert weights - {first} - {id} == weights - {id} - {first};
    }
  }

  lemma {:induction false} TotalNonNegative(weights: map<string, real>)
    requires forall id <- weights :: weights[id] >= 0.0
    ensures Total(weights) >= 0.0
    ensures Total(weights) == 0.0 ==> forall id <- weights :: weights[id] == 0.0
    decreases |weights|
  {
    forall id | id in weights ensures Total(weights) >= weights[id] {
      TotalFrom(weights, id);
      TotalNonNegative(weights - {id});
    }
    if weights != map[] {
      var id :| id in weights;
      assert Total(weights) >= weights[id];
    }
  }

  /* ----- what an allocation is ----- */

  /** What one weight receives. */
  function Share(available: real, weight: real, total: real): real {
    if total == 0.0 || available == 0.0 then 0.0 else Div(available * weight, total)
  }

  /** Every agent once, in name order, each with its weight and share. */
  ghost predicate IsAllocation(available: real, weights: map<string, real>, out: seq<Allocation>) {
    && Ascending(out)
    && (forall a <- out ::
          && a.agentId in weights
          && a == Allocation(a.agentId, weights[a.agentId], Share(available, weights[a.agentId], Total(weights))))
    && (forall id <- weights :: exists i :: 0 <= i < |out| && out[i].agentId == id)
  }

  ghost predicate Refused(available: real, weights: map<string, real>, e: AllocateError) {
    match e
    case NegativeCapital => available < 0.0
    case NegativeWeight => available >= 0.0 && exists id :: id in weights && weights[id] < 0.0
  }

  /* ----- the policy ----- */

  /** The weights listed in whatever order the map yields them, with nothing allotted yet. */
  ghost predicate Listed(weights: map<string, real>, rest: set<string>, out: seq<Allocation>) {
    && (forall i | 0 <= i < |out| :: out[i].agentId in weights && out[i].agentId !in rest
          && out[i] == Allocation(out[i].agentId, weights[out[i].agentId], 0.0))
    && (forall i, j | 0 <= i < j < |out| :: out[i].agentId != out[j].agentId)
    && (forall id | id in weights && id !in rest :: exists i :: 0 <= i < |out| && out[i].agentId == id)
  }

  method SumWeights(weights: map<string, real>) returns (total: Option<real>)
    ensures total.None? <==> exists id :: id in weights && weights[id] < 0.0
    ensures total.Some? ==> total.value == Total(weights)
  {
    var rest, sum := weights, 0.0;
    while rest != map[]
      invariant rest.Keys <= weights.Keys && forall id <- rest :: rest[id] == weights[id]
      invariant sum + Total(rest) == Total(weights)
      invariant forall id | id in weights && id !in rest :: weights[id] >= 0.0
      decreases |rest|
    {
      var id :| id in rest;
      if rest[id] < 0.0 {
        return None;
      }
      TotalFrom(rest, id);
      sum := sum + rest[id];
      rest := rest - {id};
    }
    return Some(sum);
  }

  method ListWeights(weights: map<string, real>) returns (out: seq<Allocation>)
    ensures Listed(weights, {}, out)
  {
    out := [];
    var rest := weights.Keys;
    while rest != {}
      invariant rest <= weights.Keys && Listed(weights, rest, out)
      decreases |rest|
    {
      var id :| id in rest;
      ghost var was := out;
      out := out + [Allocation(id, weights[id], 0.0)];
      rest := rest - {id};
      assert out[|was|].agentId == id;
      forall other | other in weights && other !in rest ensures exists i :: 0 <= i < |out| && out[i].agentId == other {
        if other != id {
          var i :| 0 <= i < |was| && was[i].agentId == other;
          assert out[i].agentId == other;
        }
      }
    }
  }

  /** Places one allocation among those already in order. */
  method Insert(sorted: seq<Allocation>, a: Allocation) returns (more: seq<Allocation>)
    requires Ascending(sorted) && forall b <- sorted :: b.agentId != a.agentId
    ensures Ascending(more) && multiset(more) == multiset(sorted) + multiset{a}
  {
    var k := |sorted|;
    while k > 0 && Before(a.agentId, sorted[k - 1].agentId)
      invariant 0 <= k <= |sorted|
      invariant forall i | k <= i < |sorted| :: Before(a.agentId, sorted[i].agentId)
    {
      k := k - 1;
    }
    more := sorted[..k] + [a] + sorted[k..];
    InsertedIsAscending(sorted, k, a);
    SpliceAddsOne(sorted, k, a);
  }

  lemma InsertedIsAscending(sorted: seq<Allocation>, k: nat, a: Allocation)
    requires Ascending(sorted) && k <= |sorted| && forall b <- sorted :: b.agentId != a.agentId
    requires k > 0 ==> !Before(a.agentId, sorted[k - 1].agentId)
    requires forall i | k <= i < |sorted| :: Before(a.agentId, sorted[i].agentId)
    ensures Ascending(sorted[..k] + [a] + sorted[k..])
  {
    forall i | 0 <= i < k ensures Before(sorted[i].agentId, a.agentId) {
      OrderIsTotal(sorted[k - 1].agentId, a.agentId);
      if i < k - 1 {
        OrderIsTransitive(sorted[i].agentId, sorted[k - 1].agentId, a.agentId);
      }
    }
    var more := sorted[..k] + [a] + sorted[k..];
    forall i | 0 <= i < |more|
      ensures more[i] == if i < k then sorted[i] else if i == k then a else sorted[i - 1]
    {
    }
  }

  method SortByAgent(out: seq<Allocation>) returns (sorted: seq<Allocation>)
    requires forall i, j | 0 <= i < j < |out| :: out[i].agentId != out[j].agentId
    ensures Ascending(sorted) && multiset(sorted) == multiset(out)
  {
    sorted := [];
    for n := 0 to |out|
      invariant Ascending(sorted) && multiset(sorted) == multiset(out[..n])
    {
      assert out[..n + 1] == out[..n] + [out[n]];
      forall b | b in sorted ensures b.agentId != out[n].agentId {
        assert b in multiset(out[..n]);
        var i :| 0 <= i < n && out[i] == b;
      }
      sorted := Insert(sorted, out[n]);
    }
    assert out[..|out|] == out;
  }

  /** In order, one entry per agent, nothing allotted yet. */
  ghost predicate Bare(weights: map<string, real>, out: seq<Allocation>) {
    && Ascending(out)
    && (forall a <- out :: a.agentId in weights && a == Allocation(a.agentId, weights[a.agentId], 0.0))
    && (forall id <- weights :: exists i :: 0 <= i < |out| && out[i].agentId == id)
  }

  lemma SortedListing(weights: map<string, real>, listed: seq<Allocation>, sorted: seq<Allocation>)
    requires Listed(weights, {}, listed) && Ascending(sorted) && multiset(sorted) == multiset(listed)
    ensures Bare(weights, sorted)
  {
    forall a | a in sorted ensures a.agentId in weights && a == Allocation(a.agentId, weights[a.agentId], 0.0) {
      assert a in multiset(listed);
    }
    forall id | id in weights ensures exists i :: 0 <= i < |sorted| && sorted[i].agentId == id {
      var i :| 0 <= i < |listed| && listed[i].agentId == id;
      assert listed[i] in multiset(sorted);
      var j :| 0 <= j < |sorted| && sorted[j] == listed[i];
    }
  }

  lemma Filled(available: real, weights: map<string, real>, bare: seq<Allocation>, out: seq<Allocation>)
    requires Bare(weights, bare) && |out| == |bare|
    requires forall k | 0 <= k < |out| :: out[k] == bare[k].(amount := Share(available, bare[k].weight, Total(weights)))
    ensures IsAllocation(available, weights, out)
  {
    forall a | a in out
      ensures a.agentId in weights
      ensures a == Allocation(a.agentId, weights[a.agentId], Share(available, weights[a.agentId], Total(weights)))
    {
      var k :| 0 <= k < |out| && out[k] == a;
      assert bare[k] in bare;
    }
    forall id | id in weights ensures exists i :: 0 <= i < |out| && out[i].agentId == id {
      var i :| 0 <= i < |bare| && bare[i].agentId == id;
      assert out[i].agentId == id;
    }
  }

  /** Fills in the amounts, one entry at a time. */
  method FillAmounts(available: real, bare: seq<Allocation>, total: real) returns (out: seq<Allocation>)
    requires total != 0.0 && available != 0.0
    ensures |out| == |bare|
    ensures forall k | 0 <= k < |out| :: out[k] == bare[k].(amount := Share(available, bare[k].weight, total))
  {
    out := bare;
    for i := 0 to |out|
      invariant |out| == |bare|
      invariant forall k | i <= k < |out| :: out[k] == bare[k]
      invariant forall k | 0 <= k < i :: out[k] == bare[k].(amount := Share(available, bare[k].weight, total))
    {
      out := out[i := out[i].(amount := Div(available * out[i].weight, total))];
    }
  }

  /** A negative budget or weight is refused; otherwise every agent gets its share, in name order. */
  method Allocate(available: real, weights: map<string, real>) returns (r: Result<seq<Allocation>, AllocateError>)
    ensures r.Err? ==> Refused(available, weights, r.error)
    ensures r.Ok? ==> available >= 0.0 && (forall id <- weights :: weights[id] >= 0.0)
    ensures r.Ok? ==> IsAllocation(available, weights, r.value)
  {
    if available < 0.0 {
      return Err(NegativeCapital);
    }
    var sum := SumWeights(weights);
    if sum.None? {
      return Err(NegativeWeight);
    }
    var total := sum.value;
    var listed := ListWeights(weights);
    var out := SortByAgent(listed);
    SortedListing(weights, listed, out);
    var filled := out;
    if total != 0.0 && available != 0.0 {
      filled := FillAmounts(available, out, total);
    }
    Filled(available, weights, out, filled);
    return Ok(filled);
  }

  /* ----- what allocations promise ----- */

  /** There is only one allocation: the order in which the map is walked leaves no trace. */
  lemma AllocationIsUnique(available: real, weights: map<string, real>, a: seq<Allocation>, b: seq<Allocation>)
    requires IsAllocation(available, weights, a) && IsAllocation(available, weights, b)
    ensures a == b
  {
    SameMembers(available, weights, a, b);
    SameMembers(available, weights, b, a);
    AscendingIsUnique(a, b);
  }

  lemma SameMembers(available: real, weights: map<string, real>, a: seq<Allocation>, b: seq<Allocation>)
    requires IsAllocation(available, weights, a) && IsAllocation(available, weights, b)
    ensures forall x <- a :: x in b
  {
    forall x | x in a ensures x in b {
      var j :| 0 <= j < |b| && b[j].agentId == x.agentId;
      assert b[j] in b;
    }
  }

  lemma FirstComesFirst(s: seq<Allocation>, x: Allocation)
    requires Ascending(s) && x in s && x != s[0]
    ensures Before(s[0].agentId, x.agentId)
  {
    var i :| 0 <= i < |s| && s[i] == x;
  }

  lemma {:induction false} AscendingIsUnique(a: seq<Allocation>, b: seq<Allocation>)
    requires Ascending(a) && Ascending(b)
    requires (forall x <- a :: x in b) && (forall x <- b :: x in a)
    ensures a == b
  {
    assert |a| > 0 ==> a[0] in b;
    assert |b| > 0 ==> b[0] in a;
    if |a| > 0 {
      if a[0] != b[0] {
        FirstComesFirst(a, b[0]);
        FirstComesFirst(b, a[0]);
        OrderIsTransitive(a[0].agentId, b[0].agentId, a[0].agentId);
        OrderIsStrict(a[0].agentId);
        assert false;
      }
      TailsAgree(a, b);
      TailsAgree(b, a);
      AscendingIsUnique(a[1..], b[1..]);
      assert a == [a[0]] + a[1..] && b == [b[0]] + b[1..];
    }
  }

  lemma TailsAgree(a: seq<Allocation>, b: seq<Allocation>)
    requires a != [] && b != [] && a[0] == b[0] && Ascending(a) && forall x <- a :: x in b
    ensures forall x <- a[1..] :: x in b[1..]
  {
    forall x | x in a[1..] ensures x in b[1..] {
      var i :| 1 <= i < |a| && a[i] == x;
      assert Before(a[0].agentId, a[i].agentId);
      OrderIsStrict(x.agentId);
      assert x in b;
    }
  }

  ghost function SumWeight(out: seq<Allocation>): real {
    if out == [] then 0.0 else SumWeight(out[..|out| - 1]) + out[|out| - 1].weight
  }

  ghost function SumAmount(out: seq<Allocation>): real {
    if out == [] then 0.0 else SumAmount(out[..|out| - 1]) + out[|out| - 1].amount
  }

  /** The list names exactly the map's agents, with their weights. */
  ghost predicate ListsWeights(weights: map<string, real>, out: seq<Allocation>) {
    && Ascending(out)
    && (forall a <- out :: a.agentId in weights && a.weight == weights[a.agentId])
    && (forall id <- weights :: exists i :: 0 <= i < |out| && out[i].agentId == id)
  }

  lemma InitStillListed(weights: map<string, real>, out: seq<Allocation>, a: Allocation)
    requires ListsWeights(weights, out) && out != [] && a in out[..|out| - 1]
    ensures a.agentId in weights && a.agentId != out[|out| - 1].agentId && a.weight == weights[a.agentId]
  {
    var i :| 0 <= i < |out| - 1 && out[i] == a;
    assert a in out;
    assert Before(out[i].agentId, out[|out| - 1].agentId);
    OrderIsStrict(a.agentId);
  }

  lemma RestInInit(weights: map<string, real>, out: seq<Allocation>, init: seq<Allocation>, id: string)
    requires ListsWeights(weights, out) && out != [] && init == out[..|out| - 1] && id in weights
             && id != out[|out| - 1].agentId
    ensures exists i :: 0 <= i < |init| && init[i].agentId == id
  {
    var i :| 0 <= i < |out| && out[i].agentId == id;
    assert init[i].agentId == id;
  }

  lemma AllButLast(weights: map<string, real>, out: seq<Allocation>)
    requires ListsWeights(weights, out) && out != []
    ensures ListsWeights(weights - {out[|out| - 1].agentId}, out[..|out| - 1])
  {
    var init, less := out[..|out| - 1], weights - {out[|out| - 1].agentId};
    assert Ascending(init);
    forall a | a in init ensures a.agentId in less && a.weight == less[a.agentId] {
      InitStillListed(weights, out, a);
    }
    forall id | id in less ensures exists i :: 0 <= i < |init| && init[i].agentId == id {
      RestInInit(weights, out, init, id);
    }
  }

  lemma OneFewer(weights: map<string, real>, id: string)
    requires id in weights
    ensures |weights| == |weights - {id}| + 1
  {
    assert weights.Keys == (weights - {id}).Keys + {id};
  }

  /** The listed weights add up to the total, and the list is as long as the map. */
  lemma {:induction false} ListedWeights(weights: map<string, real>, out: seq<Allocation>)
    requires ListsWeights(weights, out)
    ensures SumWeight(out) == Total(weights) && |out| == |weights|
  {
    if out == [] {
      assert weights == map[];
    } else {
      var last := out[|out| - 1];
      assert last in out;
      AllButLast(weights, out);
      ListedWeights(weights - {last.agentId}, out[..|out| - 1]);
      TotalFrom(weights, last.agentId);
      OneFewer(weights, last.agentId);
    }
  }

  /** What a weight would receive if nothing were rounded. */
  ghost function Exact(available: real, total: real): real -> real
    requires total > 0.0
  {
    (weight: real) => available * weight / total
  }

  lemma NothingOffered(weight: real, total: real)
    requires total > 0.0
    ensures Share(0.0, weight, total) == 0.0 == Exact(0.0, total)(weight)
  {
    assert 0.0 * weight == 0.0;
  }

  lemma ShareError(available: real, weight: real, total: real)
    requires total > 0.0
    ensures -HALF_ULP <= Share(available, weight, total) - Exact(available, total)(weight) <= HALF_ULP
  {
    if available == 0.0 {
      NothingOffered(weight, total);
    } else {
      var offered := available * weight / total;
      assert Exact(available, total)(weight) == offered;
      assert Share(available, weight, total) == Round16(offered);
      Round16Error(offered);
    }
  }

  lemma ExactAdds(available: real, total: real, a: real, b: real)
    requires total > 0.0
    ensures Exact(available, total)(a + b) == Exact(available, total)(a) + Exact(available, total)(b)
  {
    assert available * (a + b) == available * a + available * b;
  }

  ghost function SumExact(exact: real -> real, out: seq<Allocation>): real {
    if out == [] then 0.0 else SumExact(exact, out[..|out| - 1]) + exact(out[|out| - 1].weight)
  }

  lemma {:induction false} ExactSums(available: real, total: real, out: seq<Allocation>)
    requires total > 0.0
    ensures SumExact(Exact(available, total), out) == Exact(available, total)(SumWeight(out))
  {
    if out != [] {
      ExactSums(available, total, out[..|out| - 1]);
      ExactAdds(available, total, SumWeight(out[..|out| - 1]), out[|out| - 1].weight);
    }
  }

  /** Half a last place for each of n agents. */
  ghost function Slack(n: nat): real {
    if n == 0 then 0.0 else Slack(n - 1) + HALF_ULP
  }

  lemma {:induction false} SlackIs(n: nat)
    ensures Slack(n) == n as real * HALF_ULP
  {
    if n > 0 {
      SlackIs(n - 1);
    }
  }

  lemma {:induction false} AmountsTrackExact(exact: real -> real, out: seq<Allocation>)
    requires forall a <- out :: -HALF_ULP <= a.amount - exact(a.weight) <= HALF_ULP
    ensures -Slack(|out|) <= SumAmount(out) - SumExact(exact, out) <= Slack(|out|)
  {
    if out != [] {
      assert out[|out| - 1] in out;
      AmountsTrackExact(exact, out[..|out| - 1]);
    }
  }

  lemma AllOfItIsOffered(available: real, total: real)
    requires total > 0.0
    ensures Exact(available, total)(total) == available
  {
  }

  /** With any positive weight, the amounts add up to the budget but for half a last place per agent. */
  lemma CapitalIsConserved(available: real, weights: map<string, real>, out: seq<Allocation>)
    requires IsAllocation(available, weights, out) && Total(weights) > 0.0
    ensures -(|weights| as real * HALF_ULP) <= SumAmount(out) - available <= |weights| as real * HALF_ULP
  {
    var exact := Exact(available, Total(weights));
    forall a | a in out ensures -HALF_ULP <= a.amount - exact(a.weight) <= HALF_ULP {
      ShareError(available, a.weight, Total(weights));
    }
    ListedWeights(weights, out);
    AmountsTrackExact(exact, out);
    ExactSums(available, Total(weights), out);
    AllOfItIsOffered(available, Total(weights));
    SlackIs(|out|);
  }

  /** No amount is negative, and a larger weight never receives less. */
  lemma LargerWeightNeverLess(available: real, weights: map<string, real>, out: seq<Allocation>, a: Allocation,
                              b: Allocation)
    requires IsAllocation(available, weights, out) && available >= 0.0
    requires forall id <- weights :: weights[id] >= 0.0
    requires a in out && b in out && a.weight <= b.weight
    ensures 0.0 <= a.amount <= b.amount
  {
    TotalNonNegative(weights);
    ShareMonotone(available, 0.0, a.weight, Total(weights));
    ShareMonotone(available, a.weight, b.weight, Total(weights));
  }

  lemma ShareMonotone(available: real, low: real, high: real, total: real)
    requires available >= 0.0 && total >= 0.0 && low <= high
    ensures Share(available, low, total) <= Share(available, high, total)
    ensures Share(available, 0.0, total) == 0.0
  {
    if total > 0.0 {
      assert available * low <= available * high;
      QuotientMonotone(available * low, available * high, total);
      Round16Monotone(available * low / total, available * high / total);
    }
  }

  lemma QuotientMonotone(a: real, b: real, d: real)
    requires a <= b && d > 0.0
    ensures a / d <= b / d
  {
  }

  /** With no weight at all nothing is allotted: the budget is left where it is. */
  lemma NoWeightNoAmount(available: real, weights: map<string, real>, out: seq<Allocation>)
    requires IsAllocation(available, weights, out) && (available == 0.0 || forall id <- weights :: weights[id] == 0.0)
    ensures SumAmount(out) == 0.0
  {
    if available != 0.0 {
      TotalNonNegative(weights);
      NoTotal(weights);
    }
    NothingAllotted(out);
  }

  lemma {:induction false} NoTotal(weights: map<string, real>)
    requires forall id <- weights :: weights[id] == 0.0
    ensures Total(weights) == 0.0
    decreases |weights|
  {
    if weights != map[] {
      var id :| id in weights;
      TotalFrom(weights, id);
      NoTotal(weights - {id});
    }
  }

  lemma {:induction false} NothingAllotted(out: seq<Allocation>)
    requires forall a <- out :: a.amount == 0.0
    ensures SumAmount(out) == 0.0
  {
    if out != [] {
      NothingAllotted(out[..|out| - 1]);
    }
  }

  lemma ShareIsProportional(amount: real, available: real, weight: real, total: real)
    requires total > 0.0 && amount == Share(available, weight, total)
    ensures IsQuotient(amount, available * weight, total)
  {
    if available != 0.0 {
      DivIsQuotient(available * weight, total);
    }
  }

  lemma AmountIsShare(available: real, weights: map<string, real>, out: seq<Allocation>, a: Allocation)
    requires IsAllocation(available, weights, out) && a in out
    ensures a.agentId in weights && a.amount == Share(available, weights[a.agentId], Total(weights))
  {
  }

  /** An agent's amount is to the capital as its weight is to the total of all weights. */
  lemma AmountsAreProportional(available: real, weights: map<string, real>, out: seq<Allocation>, a: Allocation,
                               weight: real, total: real)
    requires IsAllocation(available, weights, out) && a in out
    requires weight == weights[a.agentId] && total == Total(weights) && total > 0.0
    ensures IsQuotient(a.amount, available * weight, total)
  {
    AmountIsShare(available, weights, out, a);
    ShareIsProportional(a.amount, available, weight, total);
  }
}
