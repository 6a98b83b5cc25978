/** The double-buffered vertex queue of the traversal kernels and its thread-local append buffer. */
module SlidingQueues {

  class SlidingQueue {
    const shared: array<nat>
    var sharedIn: nat
    var outStart: nat
    var outEnd: nat

    ghost predicate Valid()
      reads this
    {
      outStart <= outEnd <= sharedIn <= shared.Length
    }

    /** Everything pushed since the last reset. */
    ghost function Pushed(): seq<nat>
      requires Valid()
      reads this, shared
    {
      shared[..sharedIn]
    }

    /** What begin()..end() iterates over. */
    ghost function Window(): seq<nat>
      requires Valid()
      reads this, shared
    {
      shared[outStart..outEnd]
    }

    /** Appended, but not visible before the next slide. */
    ghost function Pending(): seq<nat>
      requires Valid()
      reads this, shared
    {
      shared[outEnd..sharedIn]
    }

    constructor (capacity: nat)
      ensures Valid() && fresh(shared) && shared.Length == capacity
      ensures Pushed() == [] && Window() == [] && outEnd == 0
    {
      shared := new nat[capacity];
      sharedIn, outStart, outEnd := 0, 0, 0;
    }

    /** The cells between the ends are the window. */
    lemma WindowAt(i: nat)
      requires Valid() && outStart <= i < outEnd
      ensures i - outStart < |Window()| && shared[i] == Window()[i - outStart]
    {
    }

    method Reset()
      modifies this
      ensures Valid() && Pushed() == [] && Window() == [] && outEnd == 0
    {
      sharedIn, outStart, outEnd := 0, 0, 0;
    }

    method PushBack(x: nat)
      requires Valid() && sharedIn < shared.Length
      modifies this`sharedIn, shared
      ensures Valid()
      ensures Pushed() == old(Pushed()) + [x]
      ensures Window() == old(Window()) && Pending() == old(Pending()) + [x]
    {
      shared[sharedIn] := x;
      sharedIn := sharedIn + 1;
    }

    method SlideWindow()
      requires Valid()
      modifies this`outStart, this`outEnd
      ensures Valid() && outStart == old(outEnd) && outEnd == sharedIn
      ensures Pushed() == old(Pushed())
      ensures Window() == old(Pending()) && Pending() == []
    {
      outStart := outEnd;
      outEnd := sharedIn;
    }
  }

  class QueueBuffer {
    const sq: SlidingQueue
    const local: array<nat>
    var fill: nat

    ghost predicate Valid()
      reads this, sq
    {
      sq.Valid() && fill <= local.Length && local.Length > 0 && local != sq.shared
    }

    /** What is held back locally. */
    ghost function Held(): seq<nat>
      requires Valid()
      reads this, sq, local
    {
      local[..fill]
    }

    constructor (master: SlidingQueue, size: nat)
      requires master.Valid() && size > 0
      ensures Valid() && sq == master && fresh(local) && Held() == []
    {
      sq := master;
      local := new nat[size];
      fill := 0;
    }

    method PushBack(x: nat)
      requires Valid() && sq.sharedIn + |Held()| < sq.shared.Length
      modifies this`fill, local, sq`sharedIn, sq.shared
      ensures Valid()
      ensures sq.Pushed() + Held() == old(sq.Pushed() + Held()) + [x]
      ensures old(sq.sharedIn) <= sq.sharedIn && sq.Window() == old(sq.Window())
    {
      if fill == local.Length {
        Flush();
      }
      ghost var h := Held();
      local[fill] := x;
      fill := fill + 1;
      assert Held() == h + [x];
    }

    method Flush()
      requires Valid() && sq.sharedIn + |Held()| <= sq.shared.Length
      modifies this`fill, sq`sharedIn, sq.shared
      ensures Valid() && fill == 0
      ensures sq.Pushed() == old(sq.Pushed() + Held()) && Held() == []
      ensures old(sq.sharedIn) <= sq.sharedIn && sq.Window() == old(sq.Window())
    {
      var copyStart := sq.sharedIn;
      sq.sharedIn := sq.sharedIn + fill;
      for i := 0 to fill
        modifies sq.shared
        invariant forall k :: 0 <= k < i ==> sq.shared[copyStart + k] == local[k]
        invariant forall k :: 0 <= k < copyStart ==> sq.shared[k] == old(sq.shared[k])
        invariant sq.Window() == old(sq.Window())
      {
        sq.shared[copyStart + i] := local[i];
      }
      fill := 0;
    }
  }
}
