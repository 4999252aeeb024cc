/** The message pool: 512 slots with an allocation bitmap, and the heap when they are all in use. */
module MsgPools {
  import opened A2aSpec

  const POOL: nat := 512

  class MsgPool {
    const messages: array<Msg>
    /** The allocation bitmap, one flag for each bit. */
    const taken: array<bool>
    var freed: nat
    /** Heap messages by address; `calls` counts heap requests and `calloc` says which of them succeed. */
    var heap: map<nat, Msg>
    var calls: nat
    const calloc: nat -> bool

    /** the allocated messages. */
    ghost var store: map<Ref, Msg>

    ghost predicate Valid()
      reads this, messages, taken
    {
      messages.Length == POOL && taken.Length == POOL &&
      (forall r :: r in store ==> Backed(r)) &&
      (forall i :: 0 <= i < POOL && taken[i] ==> Pool(i) in store) &&
      forall a :: a in heap ==> a < calls && Heap(a) in store
    }

    /** `r` denotes the stored message. */
    ghost predicate Backed(r: Ref)
      requires r in store && messages.Length == POOL && taken.Length == POOL
      reads this, messages, taken
    {
      match r
      case Null => false
      case Pool(i) => i < POOL && taken[i] && messages[i] == store[r]
      case Heap(a) => a in heap && heap[a] == store[r]
    }

    constructor (calloc: nat -> bool)
      ensures Valid() && store == map[] && this.calloc == calloc && fresh(messages) && fresh(taken)
    {
      messages := new Msg[POOL](_ => Blank);
      taken := new bool[POOL](_ => false);
      freed, heap, calls, store := 0, map[], 0, map[];
      this.calloc := calloc;
    }

    /** A blank message that was not allocated before: the lowest free slot, else the heap. Null only if both fail. */
    method Alloc() returns (r: Ref)
      requires Valid()
      modifies this, messages, taken
      ensures Valid() && calls >= old(calls)
      ensures r != Null ==> r !in old(store) && store == old(store)[r := Blank]
      ensures r == Null ==> store == old(store) && !calloc(old(calls)) && calls == old(calls) + 1
      ensures !r.Pool? ==> forall i :: 0 <= i < POOL ==> Pool(i) in old(store)
      ensures r.Pool? ==> forall i :: 0 <= i < r.index ==> Pool(i) in old(store)
    {
      for i := 0 to POOL
        invariant forall j :: 0 <= j < i ==> taken[j]
        invariant store == old(store) && heap == old(heap) && calls == old(calls) && Valid()
      {
        if !taken[i] {
          r := Pool(i);
          assert r !in store;
          Claim(i);
          return;
        }
      }
      calls := calls + 1;
      if !calloc(calls - 1) {
        assert forall x :: x in store ==> old(Backed(x));
        return Null;
      }
      r := Heap(calls - 1);
      assert forall x :: x in store ==> old(Backed(x));
      heap := heap[calls - 1 := Blank];
      store := store[r := Blank];
    }

    /** Take pool slot `i`. */
    method Claim(i: nat)
      requires Valid() && i < POOL && !taken[i]
      modifies this`store, messages, taken
      ensures Valid() && store == old(store)[Pool(i) := Blank]
    {
      assert forall x :: x in store ==> Backed(x);
      assert Pool(i) !in store;
      taken[i] := true;
      messages[i] := Blank;
      store := store[Pool(i) := Blank];
      forall x | x in store
        ensures Backed(x)
      {
        assert x != Pool(i) ==> old(Backed(x));
      }
    }

    /** Fill in an allocated message. */
    method Write(r: Ref, m: Msg)
      requires Valid() && r in store
      modifies this`store, this`heap, messages
      ensures Valid() && store == old(store)[r := m]
    {
      assert Backed(r);
      match r {
        case Pool(i) => messages[i] := m;
        case Heap(a) => heap := heap[a := m];
      }
      store := store[r := m];
      forall x | x in store
        ensures Backed(x)
      {
        assert x != r ==> old(Backed(x));
      }
    }

    method Read(r: Ref) returns (m: Msg)
      requires Valid() && r in store
      ensures m == store[r]
    {
      assert Backed(r);
      match r {
        case Pool(i) => m := messages[i];
        case Heap(a) => m := heap[a];
      }
    }

    /** Give a message back: exactly it is no longer allocated. */
    method Free(r: Ref)
      requires Valid() && r in store
      modifies this`store, this`heap, this`freed, messages, taken
      ensures Valid() && store == old(store) - {r}
    {
      assert Backed(r);
      match r {
        case Pool(i) =>
          messages[i] := Blank;
          taken[i] := false;
          freed := freed + 1;
        case Heap(a) =>
          heap := heap - {a};
      }
      store := store - {r};
      forall x | x in store
        ensures Backed(x)
      {
        assert x != r ==> old(Backed(x));
      }
    }
  }
}
