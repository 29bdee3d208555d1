/** The aligned-buffer pool: `BufferPool::acquire` and `Drop for Buffer`. */
module BufferPool {
  import opened Common
  import opened Bits

  const ALIGN: nat := 4096

  /** `align_up(n, ALIGN)`. */
  function AlignUp(n: nat): nat {
    AndNot(n + ALIGN - 1, ALIGN - 1)
  }

  /** The aligned size is the least multiple of the alignment that holds `n` bytes. */
  lemma AlignUpIsLeast(n: nat, m: nat)
    ensures n <= AlignUp(n) < n + ALIGN && exists q: nat :: AlignUp(n) == q * ALIGN
    ensures n <= m * ALIGN ==> AlignUp(n) <= m * ALIGN
  {
    hide AndNot, Pow2;
    AlignIsPow2();
    var q := MaskQuotient(n + ALIGN - 1, 12);
    if m < q {
      NextMultiple(m, q, ALIGN);
    } else if q < m {
      NextMultiple(q, m, ALIGN);
    }
  }

  lemma AlignIsPow2()
    ensures Pow2(12) == ALIGN
  {
    assert Pow2(4) == 16 && Pow2(8) == 16 * Pow2(4) && Pow2(12) == 16 * Pow2(8);
  }

  /**
   * The free list and the allocator behind it. Allocations are numbered in the order they are made;
   * `freed` holds those given back to the system.
   */
  datatype Pool = Pool(free: seq<nat>, freed: set<nat>, next: nat) {
    /** `g.pop()`: the buffer released last. */
    function Pop(): (r: (Option<nat>, Pool)) {
      if free == [] then (None, this) else (Some(free[|free| - 1]), this.(free := free[..|free| - 1]))
    }

    function Allocate(): (nat, Pool) {
      (next, this.(next := next + 1))
    }

    /** `drop`: back to the free list when `try_lock` obtains the lock, otherwise deallocated. */
    function Drop(id: nat, acquired: bool): Pool {
      if acquired then this.(free := free + [id]) else this.(freed := freed + {id})
    }
  }

  /** What is released is what the next acquire gets, and nothing else changes. */
  lemma ReleasedIsReused(pool: Pool, id: nat)
    ensures pool.Drop(id, true).Pop() == (Some(id), pool)
  {
    assert (pool.free + [id])[..|pool.free|] == pool.free;
  }

  /** The pool after `BufferPool::new(_, initial)`. */
  function NewPool(initial: nat): Pool {
    Pool(seq(initial, i => i), {}, initial)
  }

  datatype Buffer = Buffer(id: nat, cap: nat, len: nat)

  class BufferPool {
    const bufSize: nat
    var free: seq<nat>
    var freed: set<nat>
    var next: nat

    ghost function View(): Pool
      reads this
    {
      Pool(free, freed, next)
    }

    constructor (bufSize: nat, initial: nat)
      ensures View() == NewPool(initial) && this.bufSize == AlignUp(bufSize)
    {
      this.bufSize := AlignUp(bufSize);
      free, freed, next := [], {}, 0;
      new;
      for i := 0 to initial
        invariant next == i && freed == {} && free == seq(i, k => k)
      {
        var id := AllocateRaw();
        free := free + [id];
      }
    }

    method AllocateRaw() returns (id: nat)
      modifies this`next
      ensures (id, View()) == old(View()).Allocate()
    {
      id := next;
      next := next + 1;
    }

    /** `acquire`: pop a free buffer, or allocate when the list was empty. */
    method Acquire() returns (b: Buffer)
      modifies this
      ensures b.cap == bufSize && b.len == 0
      ensures var (popped, pool) := old(View()).Pop();
              if popped.Some? then b.id == popped.value && View() == pool else (b.id, View()) == pool.Allocate()
    {
      if |free| > 0 {
        b := Buffer(free[|free| - 1], bufSize, 0);
        free := free[..|free| - 1];
      } else {
        var id := AllocateRaw();
        b := Buffer(id, bufSize, 0);
      }
    }

    /** `drop(buf)`. */
    method DropBuffer(b: Buffer, acquired: bool)
      modifies this
      ensures View() == old(View()).Drop(b.id, acquired)
    {
      if acquired {
        free := free + [b.id];
        return;
      }
      freed := freed + {b.id};
    }
  }
}
