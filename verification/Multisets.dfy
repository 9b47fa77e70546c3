/** Sums of multisets in which elements move from one summand to another. */
module Multisets {

  /** One part of a sum is exchanged for another. */
  lemma Exchange<T>(total: multiset<T>, rest: multiset<T>, part: multiset<T>, part': multiset<T>, out: multiset<T>, into: multiset<T>)
    requires total == rest + part && part' + out == part + into
    ensures total + into == (rest + out) + part'
  {
    forall x
      ensures (total + into)[x] == ((rest + out) + part')[x]
    {
      assert (part' + out)[x] == (part + into)[x];
    }
  }

  /** What leaves one summand enters the other. */
  lemma MovedOver<T>(total: multiset<T>, rest: multiset<T>, rest': multiset<T>, part: multiset<T>, part': multiset<T>,
                     before: multiset<T>, after: multiset<T>)
    requires total == rest + part && part' + before == part + after && rest' + after == rest + before
    ensures total == rest' + part'
  {
    forall x
      ensures total[x] == (rest' + part')[x]
    {
      assert (part' + before)[x] == (part + after)[x];
      assert (rest' + after)[x] == (rest + before)[x];
    }
  }

  /** The union of what the elements of a sequence hold. */
  ghost function Sum<C, T>(clients: seq<C>, holds: C -> multiset<T>): multiset<T> {
    if clients == [] then multiset{} else holds(clients[0]) + Sum(clients[1..], holds)
  }

  lemma {:induction false} SumUpdate<C, T>(clients: seq<C>, holds: C -> multiset<T>, c: nat, client: C)
    requires c < |clients|
    ensures Sum(clients[c := client], holds) + holds(clients[c]) == Sum(clients, holds) + holds(client)
  {
    if c == 0 {
      assert clients[0 := client][1..] == clients[1..];
    } else {
      var first, rest := holds(clients[0]), clients[1..];
      assert clients[c := client][1..] == rest[c - 1 := client];
      SumUpdate(rest, holds, c - 1, client);
      Exchange(first + Sum(rest, holds), first, Sum(rest, holds), Sum(rest[c - 1 := client], holds), holds(clients[c]), holds(client));
      assert (first + holds(clients[c])) + Sum(rest[c - 1 := client], holds)
          == (first + Sum(rest[c - 1 := client], holds)) + holds(clients[c]);
    }
  }

  lemma {:induction false} SumEmpty<C, T>(clients: seq<C>, holds: C -> multiset<T>)
    requires forall c | 0 <= c < |clients| :: holds(clients[c]) == multiset{}
    ensures Sum(clients, holds) == multiset{}
  {
    if clients != [] {
      SumEmpty(clients[1..], holds);
    }
  }
}
