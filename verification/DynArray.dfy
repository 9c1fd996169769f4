/** The owning dynamic array: it doubles in place, shifts its items, and calls the deallocator on
    each item it drops. An item is a pointer that may be NULL (None). */
module DynArray {
  import opened PyObjects
  import opened Seqs

  // ---- What the operations do, on sequences ----

  function InsertedAt<T>(s: seq<T>, index: nat, x: T): seq<T>
    requires index <= |s|
  {
    s[..index] + [x] + s[index..]
  }

  function RemovedAt<T>(s: seq<T>, index: nat): seq<T>
    requires index < |s|
  {
    s[..index] + s[index + 1..]
  }

  /** The items that are not NULL. */
  ghost function NonNull<T>(s: seq<Option<T>>): seq<T> {
    if s == [] then [] else One(s[0]) + NonNull(s[1..])
  }

  ghost function One<T>(x: Option<T>): seq<T> {
    match x
    case None => []
    case Some(t) => [t]
  }

  lemma {:induction false} NonNullAppend<T>(a: seq<Option<T>>, b: seq<Option<T>>)
    ensures NonNull(a + b) == NonNull(a) + NonNull(b)
  {
    if a == [] {
      assert a + b == b;
    } else {
      NonNullAppend(a[1..], b);
      var s := a + b;
      assert s[0] == a[0] && s[1..] == a[1..] + b;
      assert NonNull(s) == One(a[0]) + NonNull(a[1..] + b);
      Assoc(One(a[0]), NonNull(a[1..]), NonNull(b));
    }
  }

  /** An item occurs among the non-NULL ones as often as in the sequence. */
  lemma {:induction false} NonNullCounts<T>(s: seq<Option<T>>, t: T)
    ensures multiset(NonNull(s))[t] == multiset(s)[Some(t)]
  {
    if s == [] {
    } else {
      NonNullCounts(s[1..], t);
      FirstCounts(s, Some(t));
      OneCounts(s[0], t);
      hide One;
      assert multiset(One(s[0]) + NonNull(s[1..])) == multiset(One(s[0])) + multiset(NonNull(s[1..]));
    }
  }

  lemma FirstCounts<T>(s: seq<T>, x: T)
    requires s != []
    ensures multiset(s)[x] == multiset{s[0]}[x] + multiset(s[1..])[x]
  {
    assert s == [s[0]] + s[1..];
  }

  lemma OneCounts<T>(x: Option<T>, t: T)
    ensures multiset(One(x))[t] == multiset{x}[Some(t)]
  {
  }

  lemma MiddleOut<T>(a: seq<T>, x: seq<T>, b: seq<T>)
    ensures multiset(a + (x + b)) == multiset(a + b) + multiset(x)
  {
  }

  lemma SplitAt<T>(s: seq<T>, index: nat)
    requires index < |s|
    ensures s == s[..index] + s[index..] && s[index..] != []
    ensures s[index..][0] == s[index] && s[index..][1..] == s[index + 1..]
  {
  }

  /** A sequence with and without the item at an index. */
  lemma NonNullAround<T>(s: seq<Option<T>>, index: nat)
    requires index < |s|
    ensures multiset(NonNull(s)) == multiset(NonNull(RemovedAt(s, index))) + multiset(One(s[index]))
  {
    var a, b := s[..index], s[index + 1..];
    SplitAt(s, index);
    NonNullAppend(a, s[index..]);
    NonNullAppend(a, b);
    MiddleOut(NonNull(a), One(s[index]), NonNull(b));
  }

  /** The ledger: what was put in is still there, was handed back, or was deallocated. */
  ghost predicate Ledger<T>(put: multiset<T>, s: seq<Option<T>>, popped: multiset<T>, freed: multiset<T>) {
    put == multiset(NonNull(s)) + popped + freed
  }

  lemma LedgerInsert<T>(put: multiset<T>, s: seq<Option<T>>, popped: multiset<T>, freed: multiset<T>,
                        index: nat, x: Option<T>)
    requires Ledger(put, s, popped, freed) && index <= |s|
    ensures Ledger(put + multiset(One(x)), InsertedAt(s, index, x), popped, freed)
  {
    var s' := InsertedAt(s, index, x);
    assert RemovedAt(s', index) == s;
    NonNullAround(s', index);
  }

  lemma LedgerRemove<T>(put: multiset<T>, s: seq<Option<T>>, popped: multiset<T>, freed: multiset<T>, index: nat)
    requires Ledger(put, s, popped, freed) && index < |s|
    ensures Ledger(put, RemovedAt(s, index), popped + multiset(One(s[index])), freed)
    ensures Ledger(put, RemovedAt(s, index), popped, freed + multiset(One(s[index])))
  {
    NonNullAround(s, index);
  }

  lemma LedgerUpdate<T>(put: multiset<T>, s: seq<Option<T>>, popped: multiset<T>, freed: multiset<T>,
                        index: nat, x: Option<T>)
    requires Ledger(put, s, popped, freed) && index < |s|
    ensures Ledger(put + multiset(One(x)), s[index := x], popped, freed + multiset(One(s[index])))
  {
    LedgerRemove(put, s, popped, freed, index);
    LedgerInsert(put, RemovedAt(s, index), popped, freed + multiset(One(s[index])), index, x);
    assert InsertedAt(RemovedAt(s, index), index, x) == s[index := x];
  }

  lemma EmptyPrefix<T>(s: seq<Option<T>>)
    ensures multiset(NonNull(s[..0])) == multiset{}
  {
  }

  lemma PrefixStep<T>(s: seq<Option<T>>, i: nat)
    requires i < |s|
    ensures multiset(NonNull(s[..i + 1])) == multiset(NonNull(s[..i])) + multiset(One(s[i]))
  {
    var p := s[..i + 1];
    assert RemovedAt(p, i) == s[..i];
    hide NonNull, One, RemovedAt;
    NonNullAround(p, i);
  }

  lemma LedgerClear<T>(put: multiset<T>, s: seq<Option<T>>, popped: multiset<T>, freed: multiset<T>)
    requires Ledger(put, s, popped, freed)
    ensures Ledger(put, [], popped, freed + multiset(NonNull(s)))
  {
  }

  /** What the two shifting loops leave, item by item and as sequences. */
  lemma ShiftedUp<T>(s: seq<T>, was: seq<T>, index: nat)
    requires |s| == |was| && index < |s|
    requires forall k :: 0 <= k <= index ==> s[k] == was[k]
    requires forall k :: index < k < |s| ==> s[k] == was[k - 1]
    ensures s[..index] == was[..index] && s[index + 1..] == was[index..|was| - 1]
  {
  }

  lemma ShiftedDown<T>(s: seq<T>, was: seq<T>, index: nat)
    requires |s| == |was| - 1 && index < |was|
    requires forall k :: 0 <= k < index ==> s[k] == was[k]
    requires forall k :: index <= k < |s| ==> s[k] == was[k + 1]
    ensures s == RemovedAt(was, index)
  {
  }

  lemma InsertedParts<T>(s: seq<T>, was: seq<T>, index: nat, x: T)
    requires |s| == |was| + 1 && index <= |was|
    requires s[..index] == was[..index] && s[index] == x && s[index + 1..] == was[index..]
    ensures s == InsertedAt(was, index, x)
  {
    assert s == s[..index] + [s[index]] + s[index + 1..];
  }

  // ---- The array ----

  class DynArray<T> {
    var items: array?<Option<T>>
    var capacity: nat
    var length: nat
    var deallocates: bool

    // The ledger: what was put in, what was handed back, what the deallocator was called on.
    ghost var put: multiset<T>
    ghost var popped: multiset<T>
    ghost var freed: multiset<T>

    // Growth since the array was initialised: the capacity it started with, the greatest length,
    // the number of items put in one by one, the slots copied by reallocation.
    ghost var initial: nat
    ghost var peak: nat
    ghost var inserted: nat
    ghost var copied: nat

    ghost function Contents(): seq<Option<T>>
      requires items != null && length <= items.Length
      reads this, items
    {
      items[..length]
    }

    /** The array can be read and shrunk. This survives a failed reallocation. With a deallocator,
        what was put in is still there, was handed back, or was deallocated. */
    ghost predicate Readable()
      reads this, items
    {
      && items != null && length < items.Length
      && (deallocates ==> Ledger(put, Contents(), popped, freed))
    }

    /** The array can also grow: the allocation is as large as it says. The capacity is the initial
        one or at most twice the greatest length, and every growth copied what was there. */
    ghost predicate Valid()
      reads this, items
    {
      && Readable() && items.Length == capacity
      && length <= peak <= inserted
      && 0 < initial && copied == capacity - initial
      && (capacity == initial || capacity <= 2 * peak)
    }

    /** All the copying done by reallocation is less than two slots for each item put in. */
    lemma AmortisedCopying()
      requires Valid()
      ensures copied == 0 || copied < 2 * inserted
    {
    }

    /** `pyawaitable_array_init_with_size`. `memory` says whether the allocation succeeds. */
    method InitWithSize(deallocates: bool, size: nat, memory: bool) returns (ok: bool)
      requires size > 0
      modifies this
      ensures ok == memory
      ensures !ok ==> unchanged(this)
      ensures ok ==> Valid() && fresh(items) && Contents() == [] && this.deallocates == deallocates
      ensures ok ==> put == popped == freed == multiset{} && capacity == initial == size && inserted == 0
    {
      if !memory {
        return false;
      }
      items := new Option<T>[size](_ => None);
      capacity, length, this.deallocates := size, 0, deallocates;
      put, popped, freed := multiset{}, multiset{}, multiset{};
      initial, peak, inserted, copied := size, 0, 0, 0;
      return true;
    }

    constructor ()
    {
      // pyawaitable_array_ZERO
      items, capacity, length, deallocates := null, 0, 0, false;
    }

    /** `resize_if_needed`. A failed reallocation leaves the doubled capacity behind. */
    method ResizeIfNeeded(memory: bool) returns (ok: bool)
      requires items != null && length <= items.Length == capacity && 0 < capacity
      modifies this`capacity, this`items, this`copied
      ensures items != null && length <= items.Length && Contents() == old(Contents())
      ensures items == old(items) || fresh(items)
      ensures ok == (old(length < capacity) || memory)
      ensures capacity == if old(length == capacity) then 2 * old(capacity) else old(capacity)
      ensures items.Length == if old(length == capacity) && memory then 2 * old(items.Length) else old(items.Length)
      ensures copied == old(copied) + if old(length == capacity) && memory then old(capacity) else 0
    {
      if length == capacity {
        capacity := capacity * 2;
        if !memory {
          return false;
        }
        var was := items;
        items := new Option<T>[capacity](i reads was => if 0 <= i < was.Length then was[i] else None);
        copied := copied + was.Length;
        assert items[..length] == was[..length];
      }
      return true;
    }

    /** `pyawaitable_array_append`. */
    method Append(item: Option<T>, memory: bool) returns (ok: bool)
      requires Valid()
      modifies this, items
      ensures items == old(items) || fresh(items)
      ensures Readable() && deallocates == old(deallocates) && initial == old(initial)
      ensures popped == old(popped) && freed == old(freed)
      ensures ok == (old(length) + 1 < old(capacity) || memory)
      ensures capacity == if old(length) + 1 == old(capacity) then 2 * old(capacity) else old(capacity)
      ensures ok ==> Valid() && Contents() == old(Contents()) + [item] && put == old(put) + multiset(One(item))
                     && inserted == old(inserted) + 1
      ensures !ok ==> Contents() == old(Contents()) && put == old(put)
                      && copied == old(copied) && inserted == old(inserted)
    {
      hide Ledger, One;
      ghost var was := Contents();
      items[length] := item;
      length := length + 1;
      assert items[..length] == was + [item];
      var grown := ResizeIfNeeded(memory);
      if !grown {
        length := length - 1;
        items[length] := None;
        assert items[..length] == was;
        return false;
      }
      assert InsertedAt(was, |was|, item) == was + [item];
      Enter(was, |was|, item);
      return true;
    }

    /** Bookkeeping for an item that has come in at `index`. */
    ghost method Enter(was: seq<Option<T>>, index: nat, item: Option<T>)
      requires items != null && length < items.Length == capacity && index <= |was|
      requires Contents() == InsertedAt(was, index, item)
      requires deallocates ==> Ledger(put, was, popped, freed)
      requires |was| <= peak <= inserted && 0 < initial && copied == capacity - initial
      requires capacity == initial || capacity <= 2 * length || capacity <= 2 * peak
      modifies this`put, this`inserted, this`peak
      ensures Valid() && put == old(put) + multiset(One(item)) && inserted == old(inserted) + 1
    {
      assert length == |was| + 1;
      hide Ledger, One, InsertedAt;
      if deallocates {
        LedgerInsert(put, was, popped, freed, index, item);
      }
      put := put + multiset(One(item));
      inserted := inserted + 1;
      peak := if peak < length then length else peak;
    }

    /** `pyawaitable_array_insert`. */
    method Insert(index: nat, item: Option<T>, memory: bool) returns (ok: bool)
      requires Valid() && index < length
      modifies this, items
      ensures items == old(items) || fresh(items)
      ensures Readable() && deallocates == old(deallocates) && initial == old(initial)
      ensures popped == old(popped) && freed == old(freed)
      ensures ok == (old(length) + 1 < old(capacity) || memory)
      ensures capacity == if old(length) + 1 == old(capacity) then 2 * old(capacity) else old(capacity)
      ensures ok ==> Valid() && Contents() == InsertedAt(old(Contents()), index, item)
                     && put == old(put) + multiset(One(item)) && inserted == old(inserted) + 1
      ensures !ok ==> Contents() == old(Contents()) && put == old(put)
                      && copied == old(copied) && inserted == old(inserted)
    {
      hide Ledger, One;
      ghost var was := Contents();
      length := length + 1;
      var grown := ResizeIfNeeded(memory);
      assert items[..length - 1] == was by {
        assert items[..length][..length - 1] == items[..length - 1];
        assert old(items[..length + 1])[..|was|] == was;
      }
      if !grown {
        length := length - 1;
        return false;
      }
      ShiftUp(index);
      items[index] := item;
      assert items[..index] == was[..index] && items[index + 1..length] == was[index..];
      InsertedParts(items[..length], was, index, item);
      Enter(was, index, item);
      return true;
    }

    /** The shifting loop of insert: everything from `index` on moves up by one. */
    method ShiftUp(index: nat)
      requires items != null && index < length <= items.Length
      modifies items
      ensures items[..index] == old(items[..index])
      ensures items[index + 1..length] == old(items[index..length - 1])
    {
      ghost var was := items[..length];
      var i := length - 1;
      while i > index
        invariant index <= i < length
        invariant forall k :: 0 <= k <= i ==> items[k] == was[k]
        invariant forall k :: i < k < length ==> items[k] == was[k - 1]
      {
        items[i] := items[i - 1];
        i := i - 1;
      }
      ShiftedUp(items[..length], was, index);
      assert items[..length][..index] == items[..index] && items[..length][index + 1..] == items[index + 1..length];
      assert old(items[..length])[..index] == old(items[..index]);
      assert old(items[..length])[index..length - 1] == old(items[index..length - 1]);
    }

    /** `call_deallocator_maybe`. */
    method CallDeallocatorMaybe(index: nat)
      requires items != null && index < items.Length
      modifies items, this`freed
      ensures forall k :: 0 <= k < items.Length && k != index ==> items[k] == old(items[k])
      ensures items[index] == if deallocates then None else old(items[index])
      ensures freed == if deallocates then old(freed) + multiset(One(old(items[index]))) else old(freed)
    {
      if deallocates && items[index].Some? {
        freed := freed + multiset{items[index].value};
        items[index] := None;
      }
    }

    /** `pyawaitable_array_set`. */
    method Set(index: nat, item: Option<T>)
      requires Readable() && index < length
      modifies this`put, this`freed, items
      ensures Readable() && (old(Valid()) ==> Valid())
      ensures Contents() == old(Contents())[index := item]
      ensures put == old(put) + multiset(One(item))
      ensures freed == if deallocates then old(freed) + multiset(One(old(Contents())[index])) else old(freed)
    {
      hide Ledger, One, NonNull;
      ghost var was := Contents();
      CallDeallocatorMaybe(index);
      items[index] := item;
      assert items[..length] == was[index := item];
      if deallocates {
        LedgerUpdate(put, was, popped, old(freed), index, item);
      }
      put := put + multiset(One(item));
    }

    /** `remove_no_dealloc`. */
    method RemoveNoDealloc(index: nat)
      requires items != null && index < length < items.Length
      modifies items, this`length
      ensures length == old(length) - 1
      ensures items[..length] == RemovedAt(old(items[..length]), index)
    {
      ghost var was := items[..length];
      var i := index;
      while i < length - 1
        invariant index <= i < length == |was|
        invariant forall k :: 0 <= k < index ==> items[k] == was[k]
        invariant forall k :: index <= k < i ==> items[k] == was[k + 1]
        invariant forall k :: i < k < length ==> items[k] == was[k]
      {
        items[i] := items[i + 1];
        i := i + 1;
      }
      length := length - 1;
      ShiftedDown(items[..length], was, index);
    }

    /** `pyawaitable_array_remove`. */
    method Remove(index: nat)
      requires Readable() && index < length
      modifies this`length, this`freed, items
      ensures Readable() && (old(Valid()) ==> Valid())
      ensures Contents() == RemovedAt(old(Contents()), index)
      ensures freed == if deallocates then old(freed) + multiset(One(old(Contents())[index])) else old(freed)
    {
      hide Ledger;
      ghost var was := Contents();
      CallDeallocatorMaybe(index);
      assert RemovedAt(items[..length], index) == RemovedAt(was, index);
      RemoveNoDealloc(index);
      if deallocates {
        LedgerRemove(put, was, popped, old(freed), index);
      }
    }

    /** `pyawaitable_array_pop`. */
    method Pop(index: nat) returns (item: Option<T>)
      requires Readable() && index < length
      modifies this`length, this`popped, items
      ensures Readable() && (old(Valid()) ==> Valid())
      ensures item == old(Contents())[index] && Contents() == RemovedAt(old(Contents()), index)
      ensures popped == old(popped) + multiset(One(item))
    {
      hide Ledger;
      ghost var was := Contents();
      item := items[index];
      RemoveNoDealloc(index);
      if deallocates {
        LedgerRemove(put, was, popped, freed, index);
      }
      popped := popped + multiset(One(item));
    }

    /** `pyawaitable_array_pop_top`. */
    method PopTop() returns (item: Option<T>)
      requires Readable() && length > 0
      modifies this`length, this`popped, items
      ensures Readable() && (old(Valid()) ==> Valid())
      ensures item == old(Contents())[old(length) - 1] && Contents() == old(Contents())[..old(length) - 1]
      ensures popped == old(popped) + multiset(One(item))
    {
      item := Pop(length - 1);
    }

    /** `pyawaitable_array_GET_ITEM`. */
    method GetItem(index: nat) returns (item: Option<T>)
      requires Readable() && index < length
      ensures item == Contents()[index]
    {
      item := items[index];
    }

    /** `pyawaitable_array_clear_items`: with a deallocator, everything that was there is deallocated. */
    method ClearItems()
      requires Readable()
      modifies this`length, this`freed, items
      ensures Readable() && (old(Valid()) ==> Valid()) && Contents() == []
      ensures freed == if deallocates then old(freed) + multiset(NonNull(old(Contents()))) else old(freed)
    {
      hide Ledger, NonNull, One;
      ghost var was := Contents();
      EmptyPrefix(was);
      var i := 0;
      while i < length
        invariant 0 <= i <= length == |was| && items == old(items)
        invariant forall k :: i <= k < length ==> items[k] == was[k]
        invariant freed == if deallocates then old(freed) + multiset(NonNull(was[..i])) else old(freed)
      {
        CallDeallocatorMaybe(i);
        items[i] := None;
        PrefixStep(was, i);
        i := i + 1;
      }
      assert was[..i] == was;
      length := 0;
      assert Contents() == [];
      if deallocates {
        LedgerClear(put, was, popped, old(freed));
      }
    }

    /** `pyawaitable_array_clear`: also frees the allocation. Only an initialisation may follow. */
    method Clear()
      requires Readable()
      modifies this, items
      ensures items == null && length == 0 && capacity == 0 && !deallocates
      ensures put == old(put) && popped == old(popped)
      ensures freed == if old(deallocates) then old(freed) + multiset(NonNull(old(Contents()))) else old(freed)
      ensures old(deallocates) ==> put == popped + freed
    {
      ClearItems();
      assert Contents() == [];
      items, length, capacity, deallocates := null, 0, 0, false;
    }
  }

  // ---- Any series of operations ----

  /** `memory` says whether an allocation made by the operation would succeed. */
  datatype Call<T> =
    | DoAppend(item: Option<T>, memory: bool)
    | DoInsert(index: nat, item: Option<T>, memory: bool)
    | DoSet(index: nat, item: Option<T>)
    | DoRemove(index: nat)
    | DoPop(index: nat)
    | DoClearItems

  /** What the operations depend on. After a failed reallocation the array is `stuck`: its capacity is
      more than its allocation. */
  datatype Shape<T> = Shape(items: seq<Option<T>>, capacity: nat, stuck: bool)

  predicate Grows<T>(c: Call<T>) {
    c.DoAppend? || c.DoInsert?
  }

  /** The operation is one that the array accepts: the index exists, and a stuck array is not grown. */
  predicate Fits<T>(s: Shape<T>, c: Call<T>) {
    && (Grows(c) ==> !s.stuck)
    && (c.DoAppend? || c.DoClearItems? || c.index < |s.items|)
  }

  /** One more item does not fit, and there is no memory for a larger allocation. */
  predicate Refused<T>(s: Shape<T>, c: Call<T>) {
    Grows(c) && |s.items| + 1 == s.capacity && !c.memory
  }

  function Step<T>(s: Shape<T>, c: Call<T>): Shape<T>
    requires Fits(s, c)
  {
    var capacity := if Grows(c) && |s.items| + 1 == s.capacity then 2 * s.capacity else s.capacity;
    Shape(if Refused(s, c) then s.items else Changed(s.items, c), capacity, s.stuck || Refused(s, c))
  }

  function Changed<T>(items: seq<Option<T>>, c: Call<T>): seq<Option<T>>
    requires c.DoAppend? || c.DoClearItems? || c.index < |items|
  {
    match c
    case DoAppend(x, _) => items + [x]
    case DoInsert(i, x, _) => InsertedAt(items, i, x)
    case DoSet(i, x) => items[i := x]
    case DoRemove(i) => RemovedAt(items, i)
    case DoPop(i) => RemovedAt(items, i)
    case DoClearItems => []
  }

  predicate AllFit<T>(s: Shape<T>, calls: seq<Call<T>>)
    decreases |calls|
  {
    calls == [] || (Fits(s, calls[0]) && AllFit(Step(s, calls[0]), calls[1..]))
  }

  function Steps<T>(s: Shape<T>, calls: seq<Call<T>>): Shape<T>
    requires AllFit(s, calls)
    decreases |calls|
  {
    if calls == [] then s else Steps(Step(s, calls[0]), calls[1..])
  }

  /** What one operation puts into the array. */
  ghost function PutOne<T>(s: Shape<T>, c: Call<T>): multiset<T> {
    if Refused(s, c) then multiset{}
    else
      match c
      case DoAppend(x, _) => multiset(One(x))
      case DoInsert(_, x, _) => multiset(One(x))
      case DoSet(_, x) => multiset(One(x))
      case _ => multiset{}
  }

  ghost function PutBy<T>(s: Shape<T>, calls: seq<Call<T>>): multiset<T>
    requires AllFit(s, calls)
    decreases |calls|
  {
    if calls == [] then multiset{} else PutOne(s, calls[0]) + PutBy(Step(s, calls[0]), calls[1..])
  }

  /** What one operation hands back. */
  ghost function PoppedOne<T>(s: Shape<T>, c: Call<T>): multiset<T>
    requires Fits(s, c)
  {
    if c.DoPop? then multiset(One(s.items[c.index])) else multiset{}
  }

  ghost function PoppedBy<T>(s: Shape<T>, calls: seq<Call<T>>): multiset<T>
    requires AllFit(s, calls)
    decreases |calls|
  {
    if calls == [] then multiset{} else PoppedOne(s, calls[0]) + PoppedBy(Step(s, calls[0]), calls[1..])
  }

  /** The array has this shape, and has copied less than two slots for each item put in. */
  ghost predicate Has<T>(a: DynArray<T>, s: Shape<T>)
    reads a, a.items
  {
    && a.Readable() && (!s.stuck ==> a.Valid())
    && a.Contents() == s.items && a.capacity == s.capacity
    && (a.copied == 0 || a.copied < 2 * a.inserted)
  }

  /** Any series of operations on an array, with allocations that succeed or fail, as long as an array
      is not grown after a failure: the array holds what the same operations make of a sequence; with
      a deallocator, each item that was ever put in is still there, or was handed back by one of the
      pops, or was deallocated, exactly once; and the copying done by all reallocations stays below
      two slots for each item put in. */
  method Play<T>(a: DynArray<T>, ghost s: Shape<T>, calls: seq<Call<T>>)
    requires Has(a, s) && AllFit(s, calls)
    modifies a, a.items
    ensures Has(a, Steps(s, calls)) && (a.items == old(a.items) || fresh(a.items))
    ensures a.put == old(a.put) + PutBy(s, calls) && a.popped == old(a.popped) + PoppedBy(s, calls)
    ensures a.deallocates == old(a.deallocates)
    ensures a.deallocates ==> a.put == multiset(NonNull(a.Contents())) + a.popped + a.freed
    decreases |calls|
  {
    hide One, NonNull, PutOne, PoppedOne, Changed, Refused;
    if calls == [] {
      assert a.Readable();
    } else {
      PlayOne(a, s, calls[0]);
      Play(a, Step(s, calls[0]), calls[1..]);
    }
  }

  method PlayOne<T>(a: DynArray<T>, ghost s: Shape<T>, c: Call<T>)
    requires Has(a, s) && Fits(s, c)
    modifies a, a.items
    ensures Has(a, Step(s, c)) && (a.items == old(a.items) || fresh(a.items))
    ensures a.put == old(a.put) + PutOne(s, c) && a.popped == old(a.popped) + PoppedOne(s, c)
    ensures a.deallocates == old(a.deallocates)
  {
    hide Ledger, One, InsertedAt, RemovedAt, NonNull;
    if Grows(c) {
      PlayGrowth(a, s, c);
    } else if c.DoRemove? || c.DoPop? {
      PlayRemoval(a, s, c);
    } else {
      match c
      case DoSet(i, x) => a.Set(i, x);
      case DoClearItems => a.ClearItems();
    }
  }

  method PlayRemoval<T>(a: DynArray<T>, ghost s: Shape<T>, c: Call<T>)
    requires Has(a, s) && Fits(s, c) && (c.DoRemove? || c.DoPop?)
    modifies a, a.items
    ensures Has(a, Step(s, c)) && a.items == old(a.items)
    ensures a.put == old(a.put) && a.popped == old(a.popped) + PoppedOne(s, c)
    ensures a.deallocates == old(a.deallocates)
  {
    hide Ledger, One, InsertedAt, RemovedAt, NonNull;
    match c
    case DoRemove(i) => a.Remove(i);
    case DoPop(i) => var _ := a.Pop(i);
  }

  method PlayGrowth<T>(a: DynArray<T>, ghost s: Shape<T>, c: Call<T>)
    requires Has(a, s) && Fits(s, c) && Grows(c)
    modifies a, a.items
    ensures Has(a, Step(s, c)) && (a.items == old(a.items) || fresh(a.items))
    ensures a.put == old(a.put) + PutOne(s, c) && a.popped == old(a.popped) + PoppedOne(s, c)
    ensures a.deallocates == old(a.deallocates)
  {
    hide Ledger, One, InsertedAt;
    var ok;
    match c {
      case DoAppend(x, memory) => ok := a.Append(x, memory);
      case DoInsert(i, x, memory) => ok := a.Insert(i, x, memory);
    }
    if ok {
      a.AmortisedCopying();
    }
  }
}
