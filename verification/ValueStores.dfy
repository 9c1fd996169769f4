/** The two value stores of an awaitable: saving, unpacking, setting and getting. */
module ValueStores {
  import opened PyObjects
  import opened DynArray
  import opened Seqs

  /** A variable of the caller that Unpack writes to. */
  class Cell<T> {
    var v: Option<T>

    constructor (v: Option<T>)
      ensures this.v == v
    {
      this.v := v;
    }
  }

  /** SAVE: appends the arguments one by one. `memory` says how many of the allocations succeed; when
      one fails, the values before it stay saved. */
  method Save<T>(a: DynArray<T>, args: seq<Option<T>>, memory: nat) returns (failure: Option<Exc>)
    requires a.Valid()
    modifies a, a.items
    ensures a.Readable() && (a.items == old(a.items) || fresh(a.items))
    ensures memory >= |args| ==> failure.None?
    ensures failure.None? ==> a.Valid() && a.Contents() == old(a.Contents()) + args
    ensures failure.Some? ==>
              failure.value == MemoryError
              && exists k :: memory <= k < |args| && a.Contents() == old(a.Contents()) + args[..k]
  {
    hide Ledger;
    var i := 0;
    while i < |args|
      invariant 0 <= i <= |args|
      invariant a.Valid() && (a.items == old(a.items) || fresh(a.items))
      invariant a.Contents() == old(a.Contents()) + args[..i]
    {
      var ok := a.Append(args[i], i < memory);
      if !ok {
        return Some(MemoryError);
      }
      assert args[..i] + [args[i]] == args[..i + 1];
      i := i + 1;
    }
    assert args[..i] == args;
    return None;
  }

  /** What `c` holds after the first `n` values have been written through the targets in order. */
  ghost function Final<T>(
    targets: seq<Cell?<T>>, values: seq<Option<T>>, n: nat, c: Cell<T>, before: Option<T>): Option<T>
    requires n <= |values| <= |targets|
  {
    if n == 0 then before
    else if targets[n - 1] == c then values[n - 1]
    else Final(targets, values, n - 1, c, before)
  }

  /** A variable ends up with the value at the last place `k` where it was given as a target. */
  lemma {:induction false} FinalIsLast<T>(targets: seq<Cell?<T>>, values: seq<Option<T>>, n: nat, c: Cell<T>,
                                          before: Option<T>, k: nat)
    requires k < n <= |values| <= |targets|
    requires targets[k] == c && forall j :: k < j < n ==> targets[j] != c
    ensures Final(targets, values, n, c, before) == values[k]
  {
    if k == n - 1 {
    } else {
      FinalIsLast(targets, values, n - 1, c, before, k);
    }
  }

  /** It keeps its own if there is none. */
  lemma {:induction false} FinalKept<T>(targets: seq<Cell?<T>>, values: seq<Option<T>>, n: nat, c: Cell<T>,
                                        before: Option<T>)
    requires n <= |values| <= |targets| && forall k :: 0 <= k < n ==> targets[k] != c
    ensures Final(targets, values, n, c, before) == before
  {
    if n == 0 {
    } else {
      FinalKept(targets, values, n - 1, c, before);
    }
  }

  /** UNPACK: writes the stored values through the targets, in order, skipping the ones that are
      NULL. The caller gives at least as many targets as there are values. */
  method Unpack<T>(a: DynArray<T>, targets: seq<Cell?<T>>) returns (failure: Option<Exc>)
    requires a.Readable() && a.length <= |targets|
    modifies set c: Cell?<T> | c in targets && c != null
    ensures failure == if a.length == 0 then Some(RuntimeError) else None
    ensures forall c: Cell<T> :: c in targets ==>
              c.v == Final(targets, a.Contents(), |a.Contents()|, c, old(c.v))
    ensures a.Readable() && a.Contents() == old(a.Contents())
  {
    hide Ledger;
    if a.length == 0 {
      return Some(RuntimeError);
    }
    ghost var values := a.Contents();
    var i := 0;
    while i < a.length
      invariant 0 <= i <= a.length
      invariant forall c: Cell<T> :: c in targets ==> c.v == Final(targets, values, i, c, old(c.v))
    {
      if targets[i] != null {
        targets[i].v := a.items[i];
      }
      i := i + 1;
    }
    return None;
  }

  /** SET. */
  method SetAt<T>(a: DynArray<T>, index: int, item: Option<T>) returns (failure: Option<Exc>)
    requires a.Valid()
    modifies a`put, a`freed, a.items
    ensures a.Valid()
    ensures failure == Some(IndexError) <==> index < 0 || index >= |old(a.Contents())|
    ensures failure == None <==> 0 <= index < |old(a.Contents())|
    ensures a.Contents() == if failure.None? then old(a.Contents())[index := item] else old(a.Contents())
  {
    hide Ledger;
    if index < 0 || index >= a.length {
      return Some(IndexError);
    }
    a.Set(index, item);
    return None;
  }

  /** GET. */
  method GetAt<T>(a: DynArray<T>, index: int) returns (item: Option<T>, failure: Option<Exc>)
    requires a.Readable()
    ensures failure == Some(IndexError) <==> index < 0 || index >= |a.Contents()|
    ensures failure == None <==> 0 <= index < |a.Contents()|
    ensures item == if failure.None? then a.Contents()[index] else None
  {
    if index < 0 || index >= a.length {
      return None, Some(IndexError);
    }
    return a.items[index], None;
  }

  // ---- Any mix of calls ----

  datatype Call<T> = SaveCall(args: seq<Option<T>>) | SetCall(index: int, item: Option<T>)

  /** What any mix of Save and Set calls leaves stored: the saved values one after the other, with
      each Set applied where it finds a value. */
  function Stored<T>(s: seq<Option<T>>, calls: seq<Call<T>>): seq<Option<T>>
    decreases |calls|
  {
    if calls == [] then s
    else
      match calls[0]
      case SaveCall(args) => Stored(s + args, calls[1..])
      case SetCall(index, item) => Stored(if 0 <= index < |s| then s[index := item] else s, calls[1..])
  }

  /** All values that were saved, in order. */
  function Saved<T>(calls: seq<Call<T>>): seq<Option<T>> {
    if calls == [] then []
    else (if calls[0].SaveCall? then calls[0].args else []) + Saved(calls[1..])
  }

  /** The values stored after one call. */
  function After<T>(s: seq<Option<T>>, call: Call<T>): seq<Option<T>> {
    match call
    case SaveCall(args) => s + args
    case SetCall(index, item) => if 0 <= index < |s| then s[index := item] else s
  }

  /** Call `i` is a Set that finds a value at index `k`. */
  predicate Finds<T>(s: seq<Option<T>>, calls: seq<Call<T>>, i: nat, k: nat)
    requires i < |calls|
  {
    calls[i].SetCall? && calls[i].index == k && k < |Stored(s, calls[..i])|
  }

  /** What a later call finds does not depend on where the series is cut. */
  lemma FindsLater<T>(s: seq<Option<T>>, calls: seq<Call<T>>, k: nat)
    requires calls != []
    ensures forall i :: 0 <= i < |calls| - 1 ==>
              Finds(After(s, calls[0]), calls[1..], i, k) == Finds(s, calls, i + 1, k)
    ensures Finds(s, calls, 0, k) <==> calls[0].SetCall? && calls[0].index == k && k < |s|
  {
    forall i | 0 <= i < |calls| - 1
      ensures Finds(After(s, calls[0]), calls[1..], i, k) == Finds(s, calls, i + 1, k)
    {
      assert calls[..i + 1][0] == calls[0] && calls[..i + 1][1..] == calls[1..][..i];
    }
  }

  /** Where no Set of the series found a value at an index, what was saved there is stored; a Set that
      came before the value was saved has failed and does not matter. */
  lemma {:induction false} StoredIsSaved<T>(s: seq<Option<T>>, calls: seq<Call<T>>, k: nat)
    requires forall i :: 0 <= i < |calls| ==> !Finds(s, calls, i, k)
    ensures |Stored(s, calls)| == |s| + |Saved(calls)|
    ensures k < |s| + |Saved(calls)| ==> Stored(s, calls)[k] == (s + Saved(calls))[k]
    decreases |calls|
  {
    if calls == [] {
    } else {
      var rest, next := calls[1..], After(s, calls[0]);
      FindsLater(s, calls, k);
      assert forall i :: 0 <= i < |rest| ==> !Finds(next, rest, i, k) == !Finds(s, calls, i + 1, k);
      assert !Finds(s, calls, 0, k);
      SavedAfter(s, calls, k);
      assert Stored(s, calls) == Stored(next, rest);
      hide Finds, Saved, Stored, After;
      StoredIsSaved(next, rest, k);
    }
  }

  lemma SavedAfter<T>(s: seq<Option<T>>, calls: seq<Call<T>>, k: nat)
    requires calls != [] && (calls[0].SetCall? && calls[0].index == k ==> |s| <= k)
    ensures var next, rest := After(s, calls[0]), calls[1..];
            && |next| + |Saved(rest)| == |s| + |Saved(calls)|
            && (k < |s| + |Saved(calls)| ==> (next + Saved(rest))[k] == (s + Saved(calls))[k])
  {
    var next, rest := After(s, calls[0]), calls[1..];
    assert Saved(calls) == (if calls[0].SaveCall? then calls[0].args else []) + Saved(rest);
    hide Saved;
    match calls[0]
    case SaveCall(args) => Assoc(s, args, Saved(rest));
    case SetCall(index, item) =>
      assert [] + Saved(rest) == Saved(rest);
      if 0 <= index < |s| {
        UpdatedElsewhere(s, Saved(rest), index, item, k);
      }
  }

  lemma UpdatedElsewhere<T>(a: seq<T>, b: seq<T>, index: nat, x: T, k: nat)
    requires index < |a| && k != index
    ensures k < |a| + |b| ==> (a[index := x] + b)[k] == (a + b)[k]
  {
  }

  /** Where the last Set call for an index, the one at `j`, found a value, its value is stored. */
  lemma {:induction false} StoredIsLastSet<T>(s: seq<Option<T>>, calls: seq<Call<T>>, j: nat, k: nat)
    requires j < |calls| && calls[j].SetCall? && calls[j].index == k && k < |Stored(s, calls[..j])|
    requires forall i :: j < i < |calls| && calls[i].SetCall? ==> calls[i].index != k
    ensures k < |Stored(s, calls)| && Stored(s, calls)[k] == calls[j].item
    decreases |calls|
  {
    var rest := calls[1..];
    assert forall i :: 0 <= i < |rest| ==> rest[i] == calls[i + 1];
    if j == 0 {
      StoredIsSaved(s[k := calls[0].item], rest, k);
    } else {
      assert calls[..j][1..] == rest[..j - 1];
      match calls[0]
      case SaveCall(args) =>
        StoredIsLastSet(s + args, rest, j - 1, k);
      case SetCall(index, item) =>
        StoredIsLastSet(if 0 <= index < |s| then s[index := item] else s, rest, j - 1, k);
    }
  }

  /** The stores of an awaitable. */
  class Stores {
    const objects: DynArray<Value>
    const arbitrary: DynArray<int>

    ghost predicate Valid()
      reads this, objects, arbitrary, objects.items, arbitrary.items
    {
      objects.Valid() && arbitrary.Valid()
    }

    constructor ()
      ensures fresh(objects) && fresh(arbitrary) && fresh(objects.items) && fresh(arbitrary.items)
      ensures Valid() && objects.Contents() == [] && arbitrary.Contents() == []
      ensures objects.deallocates && !arbitrary.deallocates
    {
      objects := new DynArray();
      arbitrary := new DynArray();
      new;
      var _ := objects.InitWithSize(true, 16, true);
      var _ := arbitrary.InitWithSize(false, 16, true);
    }

    /** Any mix of successful SaveValues and SetValue calls, then UnpackValues into variables of the
        caller: the caller gets the stored values, and the arbitrary values are what they were. */
    method ObjectRoundTrip(calls: seq<Call<Value>>, targets: seq<Cell?<Value>>) returns (failure: Option<Exc>)
      requires Valid() && |Stored(objects.Contents(), calls)| <= |targets|
      modifies objects, objects.items, set c: Cell?<Value> | c in targets && c != null
      ensures Valid() && objects.Contents() == Stored(old(objects.Contents()), calls)
      ensures failure.None? <==> objects.Contents() != []
      ensures forall c: Cell<Value> :: c in targets ==>
                c.v == Final(targets, objects.Contents(), |objects.Contents()|, c, old(c.v))
      ensures unchanged(arbitrary) && unchanged(arbitrary.items) && arbitrary.Contents() == old(arbitrary.Contents())
    {
      StoreAll(objects, calls);
      failure := Unpack(objects, targets);
    }

    /** The same for the arbitrary values. */
    method ArbitraryRoundTrip(calls: seq<Call<int>>, targets: seq<Cell?<int>>) returns (failure: Option<Exc>)
      requires Valid() && |Stored(arbitrary.Contents(), calls)| <= |targets|
      modifies arbitrary, arbitrary.items, set c: Cell?<int> | c in targets && c != null
      ensures Valid() && arbitrary.Contents() == Stored(old(arbitrary.Contents()), calls)
      ensures failure.None? <==> arbitrary.Contents() != []
      ensures forall c: Cell<int> :: c in targets ==>
                c.v == Final(targets, arbitrary.Contents(), |arbitrary.Contents()|, c, old(c.v))
      ensures unchanged(objects) && unchanged(objects.items) && objects.Contents() == old(objects.Contents())
    {
      StoreAll(arbitrary, calls);
      failure := Unpack(arbitrary, targets);
    }
  }

  method StoreAll<T>(a: DynArray<T>, calls: seq<Call<T>>)
    requires a.Valid()
    modifies a, a.items
    ensures a.Valid() && (a.items == old(a.items) || fresh(a.items))
    ensures a.Contents() == Stored(old(a.Contents()), calls)
    decreases |calls|
  {
    hide Ledger;
    if calls != [] {
      match calls[0] {
        case SaveCall(args) => var _ := Save(a, args, |args|);
        case SetCall(index, item) => var _ := SetAt(a, index, item);
      }
      StoreAll(a, calls[1..]);
    }
  }
}
