/** The renaming of the vendoring script: the order in which the names are replaced, and the fold
    of replacements over all files. */
module Mangler {
  import opened Seqs
  import opened Text

  const MANGLED := "__PyAwaitable_Mangled_"
  const DOUBLE_MANGLE := "__PyAwaitable_Mangled___PyAwaitable_Mangled_"

  /** The dictionary of changed names, in order of insertion. */
  datatype Names = Names(keys: seq<string>, to: map<string, string>) {
    ghost predicate Valid() {
      && (forall i, j :: 0 <= i < j < |keys| ==> keys[i] != keys[j])
      && forall k :: k in to <==> k in keys
    }
  }

  /** `result[name] = new_name`. */
  function Put(names: Names, key: string, value: string): Names {
    Names(if key in names.to then names.keys else names.keys + [key], names.to[key := value])
  }

  /** Marked with _PyAwaitable_MANGLE. */
  predicate IsExplicit(names: Names, key: string) {
    key in names.to && StartsWith(names.to[key], MANGLED)
  }

  /** The new name begins with the mark. */
  ghost predicate Marked(names: Names, key: string) {
    key in names.to && MANGLED <= names.to[key]
  }

  lemma ExplicitIsMarked(names: Names)
    ensures forall key :: IsExplicit(names, key) <==> Marked(names, key)
  {
  }

  // ---- orderize_mangled ----

  /** How many of the keys occur in the name. */
  function Amount(keys: seq<string>, name: string): nat {
    if keys == [] then 0
    else Amount(keys[..|keys| - 1], name) + if Contains(name, keys[|keys| - 1]) then 1 else 0
  }

  /** The keys that occur in a name. */
  ghost function Occurring(keys: seq<string>, name: string): set<string> {
    set key | key in keys && Contains(name, key)
  }

  /** The amount is the number of keys that occur in the name. */
  lemma {:induction false} AmountCounts(keys: seq<string>, name: string)
    requires Distinct(keys)
    ensures Amount(keys, name) == |Occurring(keys, name)|
  {
    if keys == [] {
      assert Occurring(keys, name) == {};
    } else {
      var init, last := keys[..|keys| - 1], keys[|keys| - 1];
      AmountCounts(init, name);
      assert keys == init + [last] && last !in init;
      if Contains(name, last) {
        assert Occurring(keys, name) == Occurring(init, name) + {last};
      } else {
        assert Occurring(keys, name) == Occurring(init, name);
      }
    }
  }

  lemma {:induction false} AmountMonotone(keys: seq<string>, a: string, b: string)
    requires Contains(b, a)
    ensures Amount(keys, a) <= Amount(keys, b)
    ensures a != b && b in keys ==> Amount(keys, a) < Amount(keys, b)
  {
    if keys == [] {
    } else {
      var last := keys[|keys| - 1];
      AmountMonotone(keys[..|keys| - 1], a, b);
      if Contains(a, last) {
        ContainsTransitive(b, a, last);
      }
      if a != b && last == b {
        assert !Contains(a, b) by {
          if Contains(a, b) {
            ContainsBothWays(a, b);
          }
        }
        ContainsIff(b, b);
        assert OccursAt(b, b, 0);
      }
      assert b in keys ==> b == last || b in keys[..|keys| - 1];
    }
  }

  type Order = (string, nat)

  /** Insertion before the first item with a greater or equal amount. */
  function Insert(x: Order, s: seq<Order>): seq<Order> {
    if s == [] || x.1 <= s[0].1 then [x] + s else [s[0]] + Insert(x, s[1..])
  }

  /** `list.sort(key=amount)`: by ascending amount, items with the same amount in their old order. */
  function Sort(s: seq<Order>): seq<Order> {
    if s == [] then [] else Insert(s[0], Sort(s[1..]))
  }

  ghost predicate Sorted(s: seq<Order>) {
    forall i, j :: 0 <= i < j < |s| ==> s[i].1 <= s[j].1
  }

  lemma {:induction false} InsertAdds(x: Order, s: seq<Order>)
    ensures multiset(Insert(x, s)) == multiset(s) + multiset{x}
  {
    if s != [] && x.1 > s[0].1 {
      InsertAdds(x, s[1..]);
      assert s == [s[0]] + s[1..];
    }
  }

  lemma {:induction false} InsertSorts(x: Order, s: seq<Order>)
    requires Sorted(s)
    ensures Sorted(Insert(x, s))
  {
    if s != [] && x.1 > s[0].1 {
      InsertSorts(x, s[1..]);
      InsertAdds(x, s[1..]);
      var r := Insert(x, s[1..]);
      forall j | 0 <= j < |r| ensures s[0].1 <= r[j].1 {
        assert r[j] in multiset(r);
        assert r[j] == x || r[j] in s[1..];
      }
    }
  }

  lemma {:induction false} SortSorts(s: seq<Order>)
    ensures Sorted(Sort(s)) && multiset(Sort(s)) == multiset(s)
  {
    if s == [] {
    } else {
      SortSorts(s[1..]);
      InsertSorts(s[0], Sort(s[1..]));
      InsertAdds(s[0], Sort(s[1..]));
      assert s == [s[0]] + s[1..];
    }
  }

  /** The items whose name is explicit, or those whose name is not, in order. */
  function Pick(names: Names, s: seq<Order>, explicit: bool): seq<Order> {
    if s == [] then []
    else
      Pick(names, s[..|s| - 1], explicit)
      + if IsExplicit(names, s[|s| - 1].0) == explicit then [s[|s| - 1]] else []
  }

  function Reverse<T>(s: seq<T>): (r: seq<T>)
    ensures |r| == |s| && forall i :: 0 <= i < |s| ==> r[i] == s[|s| - 1 - i]
  {
    if s == [] then [] else [s[|s| - 1]] + Reverse(s[..|s| - 1])
  }

  function Counted(names: Names, keys: seq<string>): (r: seq<Order>)
    ensures |r| == |keys| && forall i :: 0 <= i < |keys| ==> r[i] == (keys[i], Amount(names.keys, keys[i]))
  {
    seq(|keys|, i requires 0 <= i < |keys| => (keys[i], Amount(names.keys, keys[i])))
  }

  /** The order in which names are replaced: the others by descending amount, then the explicit ones
      by ascending amount. */
  function ReplacementOrder(names: Names): seq<Order> {
    var sorted := Sort(Counted(names, names.keys));
    Reverse(Pick(names, sorted, false)) + Pick(names, sorted, true)
  }

  function Firsts(s: seq<Order>): (r: seq<string>)
    ensures |r| == |s| && forall i :: 0 <= i < |s| ==> r[i] == s[i].0
  {
    seq(|s|, i requires 0 <= i < |s| => s[i].0)
  }

  lemma ReverseSnoc<T>(s: seq<T>, x: T)
    ensures Reverse(s + [x]) == [x] + Reverse(s)
  {
    assert (s + [x])[..|s|] == s;
  }

  lemma ReverseAppend<T>(a: seq<T>, b: seq<T>)
    ensures Reverse(a + b) == Reverse(b) + Reverse(a)
  {
  }

  lemma ReverseTwice<T>(s: seq<T>)
    ensures Reverse(Reverse(s)) == s
  {
  }

  // ---- What the order is ----

  lemma {:induction false} PickFacts(names: Names, s: seq<Order>, explicit: bool)
    ensures forall i :: 0 <= i < |Pick(names, s, explicit)| ==>
              Pick(names, s, explicit)[i] in s && IsExplicit(names, Pick(names, s, explicit)[i].0) == explicit
    ensures Sorted(s) ==> Sorted(Pick(names, s, explicit))
  {
    if s == [] {
    } else {
      PickFacts(names, s[..|s| - 1], explicit);
    }
  }

  lemma {:induction false} PickBoth(names: Names, s: seq<Order>)
    ensures multiset(Pick(names, s, false) + Pick(names, s, true)) == multiset(s)
  {
    if s == [] {
    } else {
      var init, last := s[..|s| - 1], s[|s| - 1];
      PickBoth(names, init);
      MultisetLast(s);
      MoveLast(Pick(names, init, false), last, Pick(names, init, true));
    }
  }

  lemma MultisetLast<T>(s: seq<T>)
    requires s != []
    ensures multiset(s) == multiset(s[..|s| - 1]) + multiset{s[|s| - 1]}
  {
    assert s == s[..|s| - 1] + [s[|s| - 1]];
  }

  lemma MoveLast<T>(a: seq<T>, x: T, b: seq<T>)
    ensures multiset((a + [x]) + b) == multiset(a + b) + multiset{x}
    ensures multiset(a + (b + [x])) == multiset(a + b) + multiset{x}
  {
  }

  lemma {:induction false} ReverseMultiset<T>(s: seq<T>)
    ensures multiset(Reverse(s)) == multiset(s)
  {
    if s == [] {
    } else {
      ReverseMultiset(s[..|s| - 1]);
      assert s == s[..|s| - 1] + [s[|s| - 1]];
    }
  }

  predicate Distinct<T(==)>(s: seq<T>) {
    forall i, j :: 0 <= i < j < |s| ==> s[i] != s[j]
  }

  lemma {:induction false} DistinctCounts<T>(s: seq<T>)
    requires Distinct(s)
    ensures forall x :: multiset(s)[x] <= 1
  {
    if s == [] {
    } else {
      assert s == [s[0]] + s[1..];
      assert s[0] !in s[1..];
      DistinctCounts(s[1..]);
    }
  }

  lemma CountsDistinct<T>(s: seq<T>)
    requires forall x :: multiset(s)[x] <= 1
    ensures Distinct(s)
  {
    forall i, j | 0 <= i < j < |s| ensures s[i] != s[j] {
      assert s == s[..i] + [s[i]] + s[i + 1..];
      assert multiset(s) == multiset(s[..i]) + multiset{s[i]} + multiset(s[i + 1..]);
      assert s[j] in s[i + 1..];
      assert s[j] == s[i] ==> multiset(s)[s[i]] >= 2;
    }
  }

  lemma SamePermutation<T>(s: seq<T>, t: seq<T>)
    requires Distinct(s) && Distinct(t) && forall x :: x in s <==> x in t
    ensures multiset(s) == multiset(t)
  {
    DistinctCounts(s);
    DistinctCounts(t);
    forall x ensures multiset(s)[x] == multiset(t)[x] {
      assert x in multiset(s) <==> x in s;
      assert x in multiset(t) <==> x in t;
    }
  }

  lemma SwapFirst<T>(a: seq<T>, a': seq<T>, b: seq<T>)
    requires multiset(a) == multiset(a')
    ensures multiset(a + b) == multiset(a' + b)
  {
  }

  /** The order is a permutation of the counted names. */
  lemma OrderIsPermutation(names: Names)
    ensures multiset(ReplacementOrder(names)) == multiset(Counted(names, names.keys))
  {
    var counted := Counted(names, names.keys);
    var sorted := Sort(counted);
    var others, explicit := Pick(names, sorted, false), Pick(names, sorted, true);
    SortSorts(counted);
    PickBoth(names, sorted);
    ReverseMultiset(others);
    SwapFirst(others, Reverse(others), explicit);
    assert ReplacementOrder(names) == Reverse(others) + explicit;
  }

  lemma PermutationDistinct<T>(s: seq<T>, t: seq<T>)
    requires multiset(s) == multiset(t) && Distinct(t)
    ensures Distinct(s) && |s| == |t| && forall x :: x in s <==> x in t
  {
    DistinctCounts(t);
    CountsDistinct(s);
    assert |multiset(s)| == |s| && |multiset(t)| == |t|;
    forall x ensures x in s <==> x in t {
      assert x in s <==> x in multiset(s);
      assert x in t <==> x in multiset(t);
    }
  }

  /** The order has each name once, with its amount. */
  lemma OrdersArePermutation(names: Names)
    requires names.Valid()
    ensures var order := ReplacementOrder(names);
            && |order| == |names.keys| && Distinct(Firsts(order))
            && (forall i :: 0 <= i < |order| ==>
                  order[i].0 in names.keys && order[i].1 == Amount(names.keys, order[i].0))
            && multiset(Firsts(order)) == multiset(names.keys)
  {
    var counted := Counted(names, names.keys);
    var order := ReplacementOrder(names);
    OrderIsPermutation(names);
    hide ReplacementOrder, Amount;
    PermutationDistinct(order, counted);
    forall i | 0 <= i < |order|
      ensures order[i].0 in names.keys && order[i].1 == Amount(names.keys, order[i].0)
    {
      assert order[i] in order;
      var j :| 0 <= j < |counted| && counted[j] == order[i];
    }
    forall k | k in names.keys ensures k in Firsts(order) {
      var i :| 0 <= i < |names.keys| && names.keys[i] == k;
      assert counted[i] in order;
      var j :| 0 <= j < |order| && order[j] == counted[i];
      assert Firsts(order)[j] == k;
    }
    SamePermutation(Firsts(order), names.keys);
  }

  /** Where the explicit names start, and by what amounts the two parts are sorted. */
  ghost predicate TwoParts(names: Names, order: seq<Order>, n: nat) {
    && n <= |order|
    && (forall i :: 0 <= i < |order| ==> (IsExplicit(names, order[i].0) <==> i >= n))
    && (forall i, j :: 0 <= i < j < n ==> order[j].1 <= order[i].1)
    && (forall i, j :: n <= i < j < |order| ==> order[i].1 <= order[j].1)
  }

  ghost predicate Descending(s: seq<Order>) {
    forall i, j :: 0 <= i < j < |s| ==> s[j].1 <= s[i].1
  }

  lemma ReverseSorted(names: Names, s: seq<Order>)
    requires Sorted(s) && forall i :: 0 <= i < |s| ==> !IsExplicit(names, s[i].0)
    ensures Descending(Reverse(s))
    ensures forall i :: 0 <= i < |Reverse(s)| ==> !IsExplicit(names, Reverse(s)[i].0)
  {
    hide IsExplicit;
    var r := Reverse(s);
    forall i, j | 0 <= i < j < |r| ensures r[j].1 <= r[i].1 {
      assert r[i] == s[|s| - 1 - i] && r[j] == s[|s| - 1 - j];
    }
  }

  lemma PutTogether(names: Names, others: seq<Order>, explicit: seq<Order>)
    requires Descending(others) && Sorted(explicit)
    requires forall i :: 0 <= i < |others| ==> !IsExplicit(names, others[i].0)
    requires forall i :: 0 <= i < |explicit| ==> IsExplicit(names, explicit[i].0)
    ensures TwoParts(names, others + explicit, |others|)
  {
    hide IsExplicit;
    var n, order := |others|, others + explicit;
    forall i, j | n <= i < j < |order| ensures order[i].1 <= order[j].1 {
      assert order[i] == explicit[i - n] && order[j] == explicit[j - n];
    }
  }

  lemma OrderParts(names: Names) returns (n: nat)
    requires names.Valid()
    ensures TwoParts(names, ReplacementOrder(names), n)
  {
    var sorted := Sort(Counted(names, names.keys));
    SortSorts(Counted(names, names.keys));
    PickFacts(names, sorted, false);
    PickFacts(names, sorted, true);
    n := |Pick(names, sorted, false)|;
    ReverseSorted(names, Pick(names, sorted, false));
    PutTogether(names, Reverse(Pick(names, sorted, false)), Pick(names, sorted, true));
  }

  /** The order of replacement: every name once; names whose new name is not marked before those whose
      new name is; among the former, a name before every other name that it contains; among the
      latter, a name after every other name that it contains. */
  lemma OrderRespectsContainment(names: Names)
    requires names.Valid()
    ensures var r := Firsts(ReplacementOrder(names));
            && multiset(r) == multiset(names.keys)
            && (forall i :: 0 <= i < |r| ==> r[i] in names.to)
            && forall i, j :: 0 <= i < |r| && 0 <= j < |r| && i != j ==>
                 var marked, marked' := MANGLED <= names.to[r[i]], MANGLED <= names.to[r[j]];
                 && (marked && !marked' ==> j < i)
                 && (!marked && !marked' && Contains(r[i], r[j]) ==> i < j)
                 && (marked && marked' && Contains(r[i], r[j]) ==> j < i)
  {
    var order := ReplacementOrder(names);
    var r := Firsts(order);
    OrdersArePermutation(names);
    SameKeys(r, names.keys);
    ExplicitIsMarked(names);
    var n := OrderParts(names);
    hide ReplacementOrder, IsExplicit;
    forall i | 0 <= i < |r| ensures r[i] in names.to {
      assert r[i] in r;
    }
    forall i, j | 0 <= i < |r| && 0 <= j < |r| && i != j
      ensures Marked(names, r[i]) && !Marked(names, r[j]) ==> j < i
      ensures !Marked(names, r[i]) && !Marked(names, r[j]) && Contains(r[i], r[j]) ==> i < j
      ensures Marked(names, r[i]) && Marked(names, r[j]) && Contains(r[i], r[j]) ==> j < i
    {
      assert IsExplicit(names, order[i].0) == Marked(names, r[i]);
      assert IsExplicit(names, order[j].0) == Marked(names, r[j]);
      if Contains(r[i], r[j]) {
        AmountMonotone(names.keys, r[j], r[i]);
        assert r[i] != r[j] && order[j].1 < order[i].1;
      }
    }
  }

  // ---- The order, exactly ----

  /** The key at place `a` of the dictionary is to be replaced before the one at place `b`: marked ones
      last; the others by descending number of keys in them, then by descending place; the marked
      ones by ascending number, then by ascending place. */
  ghost predicate Before(names: Names, a: nat, b: nat)
    requires a < |names.keys| && b < |names.keys|
  {
    var k, l := names.keys[a], names.keys[b];
    var m, n := |Occurring(names.keys, k)|, |Occurring(names.keys, l)|;
    if Marked(names, k) != Marked(names, l) then Marked(names, l)
    else if Marked(names, k) then m < n || (m == n && a < b)
    else n < m || (m == n && b < a)
  }

  /** `r` is the keys of the dictionary in the order of replacement. */
  ghost predicate Ordered(names: Names, r: seq<string>) {
    && multiset(r) == multiset(names.keys)
    && forall p, q, a, b | 0 <= p < q < |r| && 0 <= a < |names.keys| && 0 <= b < |names.keys| ::
         names.keys[a] == r[p] && names.keys[b] == r[q] ==> Before(names, a, b)
  }

  /** The first place of a key. */
  ghost function PlaceOf(keys: seq<string>, key: string): nat {
    if keys == [] || keys[0] == key then 0 else 1 + PlaceOf(keys[1..], key)
  }

  lemma {:induction false} PlaceOfKey(keys: seq<string>, i: nat)
    requires Distinct(keys) && i < |keys|
    ensures PlaceOf(keys, keys[i]) == i
  {
    if i == 0 {
    } else {
      PlaceOfKey(keys[1..], i - 1);
    }
  }

  /** By amount, and for the same amount by place. */
  ghost predicate Precedes(keys: seq<string>, x: Order, y: Order) {
    x.1 < y.1 || (x.1 == y.1 && PlaceOf(keys, x.0) < PlaceOf(keys, y.0))
  }

  ghost predicate Stable(keys: seq<string>, s: seq<Order>) {
    forall i, j :: 0 <= i < j < |s| ==> Precedes(keys, s[i], s[j])
  }

  lemma {:induction false} InsertStable(keys: seq<string>, x: Order, s: seq<Order>)
    requires Stable(keys, s) && forall i :: 0 <= i < |s| ==> PlaceOf(keys, x.0) < PlaceOf(keys, s[i].0)
    ensures Stable(keys, Insert(x, s))
  {
    hide PlaceOf;
    if s == [] {
    } else if x.1 <= s[0].1 {
      forall j | 0 <= j < |s| ensures Precedes(keys, x, s[j]) {
        assert j > 0 ==> Precedes(keys, s[0], s[j]);
      }
    } else {
      var rest := Insert(x, s[1..]);
      InsertStable(keys, x, s[1..]);
      InsertAdds(x, s[1..]);
      forall j | 0 <= j < |rest| ensures Precedes(keys, s[0], rest[j]) {
        assert rest[j] in multiset(rest);
        assert rest[j] == x || rest[j] in s[1..];
      }
    }
  }

  lemma {:induction false} SortStable(keys: seq<string>, s: seq<Order>)
    requires forall i, j :: 0 <= i < j < |s| ==> PlaceOf(keys, s[i].0) < PlaceOf(keys, s[j].0)
    ensures Stable(keys, Sort(s))
  {
    if s == [] {
    } else {
      var rest := Sort(s[1..]);
      SortStable(keys, s[1..]);
      SortSorts(s[1..]);
      forall i | 0 <= i < |rest| ensures PlaceOf(keys, s[0].0) < PlaceOf(keys, rest[i].0) {
        assert rest[i] in multiset(rest);
        assert rest[i] in s[1..];
      }
      InsertStable(keys, s[0], rest);
    }
  }

  lemma {:induction false} PickStable(names: Names, keys: seq<string>, s: seq<Order>, explicit: bool)
    requires Stable(keys, s)
    ensures Stable(keys, Pick(names, s, explicit))
  {
    if s == [] {
    } else {
      PickStable(names, keys, s[..|s| - 1], explicit);
      PickFacts(names, s[..|s| - 1], explicit);
    }
  }

  lemma CountedStable(names: Names)
    requires names.Valid()
    ensures Stable(names.keys, Sort(Counted(names, names.keys)))
  {
    var counted := Counted(names, names.keys);
    forall i, j | 0 <= i < j < |counted|
      ensures PlaceOf(names.keys, counted[i].0) < PlaceOf(names.keys, counted[j].0)
    {
      PlaceOfKey(names.keys, i);
      PlaceOfKey(names.keys, j);
    }
    SortStable(names.keys, counted);
  }

  /** Of two items of the order, which comes first. */
  ghost predicate InTurn(names: Names, x: Order, y: Order) {
    if IsExplicit(names, x.0) != IsExplicit(names, y.0) then IsExplicit(names, y.0)
    else if IsExplicit(names, x.0) then Precedes(names.keys, x, y)
    else Precedes(names.keys, y, x)
  }

  lemma ItemsInTurn(names: Names)
    requires names.Valid()
    ensures var order := ReplacementOrder(names);
            forall p, q :: 0 <= p < q < |order| ==> InTurn(names, order[p], order[q])
  {
    var sorted := Sort(Counted(names, names.keys));
    var others, explicit := Pick(names, sorted, false), Pick(names, sorted, true);
    var order, n := Reverse(others) + explicit, |others|;
    CountedStable(names);
    PickStable(names, names.keys, sorted, false);
    PickStable(names, names.keys, sorted, true);
    PickFacts(names, sorted, false);
    PickFacts(names, sorted, true);
    hide Pick, Sort, Counted, IsExplicit, Precedes;
    forall p, q | 0 <= p < q < |order| ensures InTurn(names, order[p], order[q]) {
      if q < n {
        assert order[p] == others[n - 1 - p] && order[q] == others[n - 1 - q];
      } else if p < n {
        assert order[p] == others[n - 1 - p] && order[q] == explicit[q - n];
      } else {
        assert order[p] == explicit[p - n] && order[q] == explicit[q - n];
      }
    }
  }

  /** The order of replacement is the one that `Before` says, and no other. */
  lemma OrderIsOrdered(names: Names)
    requires names.Valid()
    ensures Ordered(names, Firsts(ReplacementOrder(names)))
  {
    var order := ReplacementOrder(names);
    var r := Firsts(order);
    OrdersArePermutation(names);
    ItemsInTurn(names);
    ExplicitIsMarked(names);
    hide ReplacementOrder, IsExplicit, Marked, Amount, Occurring;
    forall p, q, a, b |
      0 <= p < q < |r| && 0 <= a < |names.keys| && 0 <= b < |names.keys|
      && names.keys[a] == r[p] && names.keys[b] == r[q]
      ensures Before(names, a, b)
    {
      assert InTurn(names, order[p], order[q]);
      PlaceOfKey(names.keys, a);
      PlaceOfKey(names.keys, b);
      AmountCounts(names.keys, r[p]);
      AmountCounts(names.keys, r[q]);
    }
  }

  /** The first loops of `orderize_mangled`: each name with the number of keys that occur in it. */
  method CountOrders(names: Names) returns (orders: seq<Order>)
    ensures orders == Counted(names, names.keys)
  {
    orders := [];
    for n := 0 to |names.keys|
      invariant orders == Counted(names, names.keys[..n])
    {
      var name := names.keys[n];
      var amount := 0;
      for m := 0 to |names.keys|
        invariant amount == Amount(names.keys[..m], name)
      {
        assert names.keys[..m + 1][..m] == names.keys[..m];
        if Contains(name, names.keys[m]) {
          amount := amount + 1;
        }
      }
      assert names.keys[..|names.keys|] == names.keys;
      orders := orders + [(name, amount)];
    }
    assert names.keys[..|names.keys|] == names.keys;
  }

  /** The loop that takes explicit items out of the list and puts them in front while it runs over a
      copy of the list. What it has passed is always the explicit items in reverse, then the others,
      so the index it pops is that of the item it looks at. */
  method MoveExplicit(names: Names, sorted: seq<Order>) returns (orders: seq<Order>)
    ensures orders == Reverse(Pick(names, sorted, true)) + Pick(names, sorted, false)
    ensures MarkedFirst(names, orders)
  {
    hide Passed, IsExplicit, MarkedFirst;
    orders := sorted;
    var copy := orders;
    PassedEnds(names, copy);
    for index := 0 to |copy|
      invariant orders == Passed(names, copy[..index]) + copy[index..]
      invariant |Passed(names, copy[..index])| == index
    {
      var name := copy[index].0;
      assert copy[..index + 1] == copy[..index] + [copy[index]];
      assert copy[index..] == [copy[index]] + copy[index + 1..];
      PassedStep(names, copy[..index], copy[index]);
      PopInsert(Passed(names, copy[..index]), copy[index], copy[index + 1..]);
      if IsExplicit(names, name) {
        var popped := orders[index];
        orders := orders[..index] + orders[index + 1..];
        orders := [popped] + orders;
      }
    }
    assert orders == Passed(names, copy) + [];
  }

  /** All marked items stand before all others. */
  ghost predicate MarkedFirst(names: Names, orders: seq<Order>) {
    forall i, j :: 0 <= i < j < |orders| && Marked(names, orders[j].0) ==> Marked(names, orders[i].0)
  }

  lemma TwoPartsMarkedFirst(names: Names, a: seq<Order>, b: seq<Order>)
    requires forall i :: 0 <= i < |a| ==> Marked(names, a[i].0)
    requires forall i :: 0 <= i < |b| ==> !Marked(names, b[i].0)
    ensures MarkedFirst(names, a + b)
  {
    hide Marked;
    var s := a + b;
    forall j | 0 <= j < |s| ensures Marked(names, s[j].0) <==> j < |a| {
      if j >= |a| {
        assert s[j] == b[j - |a|];
      }
    }
  }

  lemma ReverseMarked(names: Names, s: seq<Order>)
    requires forall i :: 0 <= i < |s| ==> Marked(names, s[i].0)
    ensures forall i :: 0 <= i < |Reverse(s)| ==> Marked(names, Reverse(s)[i].0)
  {
    hide Marked;
    forall i | 0 <= i < |s| ensures Marked(names, Reverse(s)[i].0) {
      assert Reverse(s)[i] == s[|s| - 1 - i];
    }
  }

  /** What the loop makes of the list has the marked ones in front. */
  lemma MarkedInFront(names: Names, s: seq<Order>)
    ensures MarkedFirst(names, Reverse(Pick(names, s, true)) + Pick(names, s, false))
  {
    PickFacts(names, s, true);
    PickFacts(names, s, false);
    ExplicitIsMarked(names);
    hide Pick, IsExplicit, Marked, MarkedFirst, Reverse;
    ReverseMarked(names, Pick(names, s, true));
    TwoPartsMarkedFirst(names, Reverse(Pick(names, s, true)), Pick(names, s, false));
  }

  lemma PassedEnds(names: Names, s: seq<Order>)
    ensures Passed(names, s[..0]) + s[0..] == s && |Passed(names, s[..0])| == 0
    ensures s[..|s|] == s && s[|s|..] == []
    ensures Passed(names, s) == Reverse(Pick(names, s, true)) + Pick(names, s, false)
    ensures MarkedFirst(names, Passed(names, s))
  {
    MarkedInFront(names, s);
    hide MarkedFirst;
  }

  /** Popping the item after `p` and putting it in front, or leaving it there. */
  lemma PopInsert<T>(p: seq<T>, x: T, rest: seq<T>)
    ensures var s := p + ([x] + rest);
            && s[|p|] == x
            && [x] + (s[..|p|] + s[|p| + 1..]) == ([x] + p) + rest
            && s == (p + [x]) + rest
  {
  }

  /** The part of the list that the loop has passed. */
  function Passed(names: Names, s: seq<Order>): seq<Order> {
    Reverse(Pick(names, s, true)) + Pick(names, s, false)
  }

  lemma PassedStep(names: Names, s: seq<Order>, x: Order)
    ensures Passed(names, s + [x]) == if IsExplicit(names, x.0) then [x] + Passed(names, s) else Passed(names, s) + [x]
    ensures |Passed(names, s + [x])| == |Passed(names, s)| + 1
  {
    assert (s + [x])[..|s|] == s;
    if IsExplicit(names, x.0) {
      ReverseSnoc(Pick(names, s, true), x);
      assert Pick(names, s + [x], false) == Pick(names, s, false);
    } else {
      assert Pick(names, s + [x], true) == Pick(names, s, true);
    }
  }

  /** `orderize_mangled`. */
  method Orderize(names: Names) returns (result: Names)
    requires names.Valid()
    ensures result.Valid() && result.to == names.to
    ensures result.keys == Firsts(ReplacementOrder(names)) && Ordered(names, result.keys)
  {
    var orders := CountOrders(names);
    orders := Sort(orders);
    ghost var sorted := orders;
    orders := MoveExplicit(names, orders);
    var back := Reverse(orders);
    assert back == ReplacementOrder(names) by {
      ReverseAppend(Reverse(Pick(names, sorted, true)), Pick(names, sorted, false));
      ReverseTwice(Pick(names, sorted, true));
    }
    OrdersArePermutation(names);
    OrderIsOrdered(names);
    result := Rebuild(names, back);
  }

  /** The last loop: the dictionary in the new order. */
  method Rebuild(names: Names, back: seq<Order>) returns (result: Names)
    requires names.Valid() && Distinct(Firsts(back)) && multiset(Firsts(back)) == multiset(names.keys)
    ensures result.Valid() && result.to == names.to && result.keys == Firsts(back)
  {
    result := Names([], map[]);
    ghost var firsts := Firsts(back);
    SameKeys(firsts, names.keys);
    for i := 0 to |back|
      invariant result.keys == firsts[..i]
      invariant forall k :: k in result.to <==> k in firsts[..i]
      invariant forall k :: k in result.to ==> k in names.to && result.to[k] == names.to[k]
    {
      var key := back[i].0;
      assert firsts[i] == key && key in firsts && key !in firsts[..i];
      assert firsts[..i + 1] == firsts[..i] + [key];
      result := Put(result, key, names.to[key]);
    }
    assert firsts[..|back|] == firsts;
  }

  lemma SameKeys<T>(s: seq<T>, t: seq<T>)
    requires multiset(s) == multiset(t)
    ensures forall k :: k in s <==> k in t
  {
    forall k ensures k in s <==> k in t {
      assert k in s <==> k in multiset(s);
      assert k in t <==> k in multiset(t);
    }
  }

  // ---- The fold over the files ----

  /** `clean_mangled(line.replace(name, new_name))`. */
  function RenameOne(text: string, name: string, new_: string): string
    requires name != ""
  {
    Replace(Replace(text, name, new_), DOUBLE_MANGLE, MANGLED)
  }

  /** All replacements, one after the other. */
  function RenameFrom(keys: seq<string>, to: map<string, string>, text: string): string
    requires forall i :: 0 <= i < |keys| ==> keys[i] != "" && keys[i] in to
  {
    if keys == [] then text else RenameFrom(keys[1..], to, RenameOne(text, keys[0], to[keys[0]]))
  }

  /** The replacement loop of `process_files`. */
  method ReplaceInFiles(names: Names, files: array<string>)
    requires names.Valid() && "" !in names.keys
    modifies files
    ensures forall f :: 0 <= f < files.Length ==> files[f] == RenameFrom(names.keys, names.to, old(files[f]))
  {
    for n := 0 to |names.keys|
      invariant forall f :: 0 <= f < files.Length ==>
                  RenameFrom(names.keys[n..], names.to, files[f]) == RenameFrom(names.keys, names.to, old(files[f]))
    {
      ghost var keys := names.keys[n..];
      assert keys[0] == names.keys[n] && keys[1..] == names.keys[n + 1..];
      ReplaceName(files, names.keys[n], names.to[names.keys[n]]);
    }
  }

  /** The inner loop: one name, in all files. */
  method ReplaceName(files: array<string>, name: string, new_: string)
    requires name != ""
    modifies files
    ensures forall f :: 0 <= f < files.Length ==> files[f] == RenameOne(old(files[f]), name, new_)
  {
    hide RenameOne;
    for index := 0 to files.Length
      invariant forall f :: 0 <= f < index ==> files[f] == RenameOne(old(files[f]), name, new_)
      invariant forall f :: index <= f < files.Length ==> files[f] == old(files[f])
    {
      files[index] := RenameOne(files[index], name, new_);
    }
  }

  /** The renaming part of `process_files`: order the names, then replace them in all files. */
  method RenameFiles(names: Names, files: array<string>)
    requires names.Valid() && "" !in names.keys
    modifies files
    ensures var order := Firsts(ReplacementOrder(names));
            && Ordered(names, order) && (forall i :: 0 <= i < |order| ==> order[i] != "" && order[i] in names.to)
            && forall f :: 0 <= f < files.Length ==> files[f] == RenameFrom(order, names.to, old(files[f]))
  {
    var ordered := Orderize(names);
    ReplaceInFiles(ordered, files);
  }

  /** Names and replacements consist of identifier characters. */
  ghost predicate AllIdents(keys: seq<string>, to: map<string, string>) {
    forall i :: 0 <= i < |keys| ==>
      keys[i] != "" && IsIdent(keys[i]) && keys[i] in to && IsIdent(to[keys[i]])
  }

  lemma {:induction false} RenameWord(keys: seq<string>, to: map<string, string>, word: string)
    requires AllIdents(keys, to) && IsIdent(word)
    ensures IsIdent(RenameFrom(keys, to, word))
  {
    if keys == [] {
    } else {
      var name := keys[0];
      ReplaceIdent(word, name, to[name]);
      ReplaceIdent(Replace(word, name, to[name]), DOUBLE_MANGLE, MANGLED);
      RenameWord(keys[1..], to, RenameOne(word, name, to[name]));
    }
  }

  lemma {:induction false} RenameAtDelimiter(keys: seq<string>, to: map<string, string>, a: string, d: char, b: string)
    requires AllIdents(keys, to) && !IsIdentChar(d)
    ensures RenameFrom(keys, to, a + [d] + b) == RenameFrom(keys, to, a) + [d] + RenameFrom(keys, to, b)
  {
    if keys == [] {
    } else {
      var name, new_ := keys[0], to[keys[0]];
      ReplaceAtDelimiter(a, d, b, name, new_);
      ReplaceAtDelimiter(Replace(a, name, new_), d, Replace(b, name, new_), DOUBLE_MANGLE, MANGLED);
      RenameAtDelimiter(keys[1..], to, RenameOne(a, name, new_), d, RenameOne(b, name, new_));
    }
  }

  function RenameWords(keys: seq<string>, to: map<string, string>, words: seq<string>): (r: seq<string>)
    requires forall i :: 0 <= i < |keys| ==> keys[i] != "" && keys[i] in to
    ensures |r| == |words| && forall i :: 0 <= i < |words| ==> r[i] == RenameFrom(keys, to, words[i])
  {
    seq(|words|, i requires 0 <= i < |words| => RenameFrom(keys, to, words[i]))
  }

  lemma {:induction false} RenameJoin(keys: seq<string>, to: map<string, string>, words: seq<string>, delims: seq<char>)
    requires AllIdents(keys, to) && IsSplit(words, delims)
    ensures RenameFrom(keys, to, Join(words, delims)) == Join(RenameWords(keys, to, words), delims)
    ensures IsSplit(RenameWords(keys, to, words), delims)
    decreases |delims|
  {
    forall i | 0 <= i < |words| ensures IsIdent(RenameWords(keys, to, words)[i]) {
      RenameWord(keys, to, words[i]);
    }
    if delims == [] {
    } else {
      RenameAtDelimiter(keys, to, words[0], delims[0], Join(words[1..], delims[1..]));
      RenameJoin(keys, to, words[1..], delims[1..]);
      assert RenameWords(keys, to, words)[1..] == RenameWords(keys, to, words[1..]);
    }
  }

  /** The renaming is consistent: whatever the text and the order of replacement, the delimiters stay
      as they are, and the identifier at each place becomes what the identifier becomes on its own,
      so the same one wherever it stands, in every file. */
  lemma RenamingIsConsistent(keys: seq<string>, to: map<string, string>, text: string)
    requires AllIdents(keys, to)
    ensures var (words, delims) := Split(text);
            var (words', delims') := Split(RenameFrom(keys, to, text));
            && delims' == delims && |words'| == |words|
            && forall i :: 0 <= i < |words| ==> words'[i] == RenameFrom(keys, to, words[i])
  {
    var (words, delims) := Split(text);
    var (words', delims') := Split(RenameFrom(keys, to, text));
    RenameJoin(keys, to, words, delims);
    SplitUnique(words', delims', RenameWords(keys, to, words), delims);
  }

  /** What the order is for: when its turn comes, a name that is not explicit is still in one piece.
      No name replaced before it occurs in it, so it is replaced as a whole, by its new name. */
  lemma NameIsWholeAtItsTurn(names: Names, p: nat)
    requires names.Valid() && "" !in names.keys
    requires var order := Firsts(ReplacementOrder(names));
             p < |order| && !Marked(names, order[p]) && !Contains(order[p], DOUBLE_MANGLE)
    ensures var order := Firsts(ReplacementOrder(names));
            var k := order[p];
            && (forall i :: 0 <= i < |order| ==> order[i] in names.keys)
            && RenameFrom(order[..p], names.to, k) == k
            && Replace(k, k, names.to[k]) == names.to[k]
            && RenameFrom(order, names.to, k)
               == RenameFrom(order[p + 1..], names.to, Replace(names.to[k], DOUBLE_MANGLE, MANGLED))
  {
    var order := Firsts(ReplacementOrder(names));
    var k := order[p];
    OrdersArePermutation(names);
    OrderRespectsContainment(names);
    forall i | 0 <= i < p ensures !Contains(k, order[i]) {
      assert MANGLED <= names.to[order[i]] ==> p < i;
    }
    AbsentStay(order[..p], names.to, k);
    ReplaceWhole(k, names.to[k]);
    RenameSplit(order, names.to, k, p);
    assert order[p..][0] == k && order[p..][1..] == order[p + 1..];
  }

  lemma {:induction false} AbsentStay(keys: seq<string>, to: map<string, string>, text: string)
    requires forall i :: 0 <= i < |keys| ==> keys[i] != "" && keys[i] in to && !Contains(text, keys[i])
    requires !Contains(text, DOUBLE_MANGLE)
    ensures RenameFrom(keys, to, text) == text
  {
    if keys == [] {
    } else {
      ReplaceAbsent(text, keys[0], to[keys[0]]);
      ReplaceAbsent(text, DOUBLE_MANGLE, MANGLED);
      AbsentStay(keys[1..], to, text);
    }
  }

  lemma {:induction false} RenameSplit(keys: seq<string>, to: map<string, string>, text: string, p: nat)
    requires forall i :: 0 <= i < |keys| ==> keys[i] != "" && keys[i] in to
    requires p <= |keys|
    ensures RenameFrom(keys, to, text) == RenameFrom(keys[p..], to, RenameFrom(keys[..p], to, text))
    decreases |keys|
  {
    if p > 0 {
      RenameSplit(keys[1..], to, RenameOne(text, keys[0], to[keys[0]]), p - 1);
      assert keys[1..][p - 1..] == keys[p..] && keys[1..][..p - 1] == keys[..p][1..];
    }
  }

  // ---- Explicit names ----

  /** Where the name occurs in the mangled name, it is explicit and occurs right after the mark only. */
  ghost predicate Harmless(name: string, to: map<string, string>, k: string) {
    name != "" && name in to
    && (Contains(MANGLED + k, name) ==> to[name] == MANGLED + name && OnlyAt(MANGLED + k, name, |MANGLED|))
  }

  lemma MarkedContains(mark: string, k: string, name: string)
    requires Contains(k, name)
    ensures Contains(mark + k, name)
  {
    ContainsIff(k, name);
    var i :| 0 <= i <= |k| && OccursAt(k, name, i);
    assert (mark + k)[|mark|..] == k;
    OccursInTail(mark + k, name, |mark|, i);
    ContainsIff(mark + k, name);
  }

  lemma MarkAgain(mark: string, name: string, rest: string)
    requires name != "" && OnlyAt(mark + name + rest, name, |mark|)
    ensures Replace(mark + name + rest, name, mark + name) == (mark + mark) + (name + rest)
  {
    hide Replace, OnlyAt;
    ReplaceMiddle(mark, name, rest, mark + name);
    Assoc(mark, mark, name);
    Assoc(mark + mark, name, rest);
  }

  lemma MarkFirst(mark: string, name: string, rest: string)
    requires name != "" && OnlyAt(name + rest, name, 0)
    ensures Replace(name + rest, name, mark + name) == mark + (name + rest)
  {
    hide Replace, OnlyAt;
    assert "" + name == name && "" + (mark + name) == mark + name;
    ReplaceMiddle("", name, rest, mark + name);
    Assoc(mark, name, rest);
  }

  /** A name that occurs right after the mark only is marked once more, and in front of an unmarked
      text for the first time. */
  lemma MarkFront(mark: string, k: string, name: string)
    requires name != "" && OnlyAt(mark + k, name, |mark|)
    ensures Replace(mark + k, name, mark + name) == (mark + mark) + k
    ensures Contains(k, name) && Replace(k, name, mark + name) == mark + k
  {
    var rest := k[|name|..];
    OnlyInTail(mark + k, name, |mark|, |mark|);
    assert (mark + k)[|mark|..] == k;
    ContainsIff(k, name);
    assert k == name + rest;
    hide Replace, Contains, OnlyAt, OccursAt;
    Assoc(mark, name, rest);
    MarkAgain(mark, name, rest);
    MarkFirst(mark, name, rest);
  }

  lemma TakeMarkAway(mark: string, double: string, k: string)
    requires double != "" && !Contains(k, double)
    ensures Replace(double + k, double, mark) == mark + k
  {
    ReplaceAbsent(k, double, mark);
    assert (double + k)[|double|..] == k && (double + k)[..|double|] == double;
  }

  /** One replacement marks the name, or leaves it as it is; a second mark is taken away again. */
  lemma MarkOnce(name: string, to: map<string, string>, k: string)
    requires Harmless(name, to, k) && !Contains(MANGLED + k, DOUBLE_MANGLE)
    ensures RenameOne(MANGLED + k, name, to[name]) == MANGLED + k
    ensures RenameOne(k, name, to[name]) == if Contains(k, name) then MANGLED + k else k
  {
    assert DOUBLE_MANGLE == MANGLED + MANGLED;
    ghost var mark, double := MANGLED, DOUBLE_MANGLE;
    hide Replace, Contains;
    if Contains(k, double) {
      MarkedContains(mark, k, double);
    }
    ReplaceAbsent(mark + k, double, mark);
    ReplaceAbsent(k, double, mark);
    if Contains(mark + k, name) {
      MarkFront(mark, k, name);
      TakeMarkAway(mark, double, k);
    } else {
      if Contains(k, name) {
        MarkedContains(mark, k, name);
      }
      ReplaceAbsent(mark + k, name, to[name]);
      ReplaceAbsent(k, name, to[name]);
    }
  }

  /** What clean_mangled is for: an explicit name is marked exactly once, however many explicit names it
      begins with and in whatever order they are replaced, as long as every name that occurs in the
      marked name is explicit and occurs there only right after the mark. */
  lemma {:induction false} ExplicitIsMarkedOnce(keys: seq<string>, to: map<string, string>, k: string)
    requires !Contains(MANGLED + k, DOUBLE_MANGLE)
    requires forall i :: 0 <= i < |keys| ==> keys[i] != "" && keys[i] in to && Harmless(keys[i], to, k)
    ensures RenameFrom(keys, to, MANGLED + k) == MANGLED + k
    ensures k in keys ==> RenameFrom(keys, to, k) == MANGLED + k
  {
    if keys == [] {
    } else {
      MarkOnce(keys[0], to, k);
      ContainsIff(k, k);
      assert OccursAt(k, k, 0);
      hide Harmless, Contains, RenameOne;
      ExplicitIsMarkedOnce(keys[1..], to, k);
    }
  }

  /** So in the order of the script. */
  lemma ExplicitNameIsMarkedOnce(names: Names, k: string)
    requires names.Valid() && k in names.keys && !Contains(MANGLED + k, DOUBLE_MANGLE)
    requires forall name :: name in names.keys ==> Harmless(name, names.to, k)
    ensures var order := Firsts(ReplacementOrder(names));
            && (forall i :: 0 <= i < |order| ==> order[i] != "" && order[i] in names.to)
            && RenameFrom(order, names.to, k) == MANGLED + k
  {
    var order := Firsts(ReplacementOrder(names));
    OrdersArePermutation(names);
    SameKeys(order, names.keys);
    forall i | 0 <= i < |order| ensures Harmless(order[i], names.to, k) {
      assert order[i] in order;
    }
    ExplicitIsMarkedOnce(order, names.to, k);
  }
}
