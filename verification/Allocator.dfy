/** The limited allocator of a Lua state: memory_used is the memory that its live blocks take (src/lws_state.c). */
module Allocator {
  import opened Wrappers
  import opened LuaStates

  type Address = nat

  /** The sizes of the live blocks, added up in any order. */
  ghost function Total(blocks: map<Address, nat>): nat {
    if blocks == map[] then 0
    else
      var p :| p in blocks;
      blocks[p] + Total(blocks - {p})
  }

  lemma {:induction false} TotalWithout(blocks: map<Address, nat>, p: Address)
    requires p in blocks
    ensures Total(blocks) == blocks[p] + Total(blocks - {p})
  {
    var q :| q in blocks && Total(blocks) == blocks[q] + Total(blocks - {q});
    if p != q {
      TotalWithout(blocks - {q}, p);
      TotalWithout(blocks - {p}, q);
      assert blocks - {q} - {p} == blocks - {p} - {q};
    }
  }

  lemma TotalWith(blocks: map<Address, nat>, p: Address, size: nat)
    requires p !in blocks
    ensures Total(blocks[p := size]) == Total(blocks) + size
  {
    TotalWithout(blocks[p := size], p);
    assert blocks[p := size] - {p} == blocks;
  }

  /** The size of the block at ptr; none, none. */
  function SizeOf(blocks: map<Address, nat>, ptr: Option<Address>): nat {
    match ptr
    case None => 0
    case Some(p) => if p in blocks then blocks[p] else 0
  }

  function Freed(blocks: map<Address, nat>, ptr: Option<Address>): map<Address, nat> {
    match ptr
    case None => blocks
    case Some(p) => blocks - {p}
  }

  lemma TotalFreed(blocks: map<Address, nat>, ptr: Option<Address>)
    requires ptr.Some? ==> ptr.value in blocks
    ensures Total(Freed(blocks, ptr)) == Total(blocks) - SizeOf(blocks, ptr)
  {
    if ptr.Some? { TotalWithout(blocks, ptr.value); }
  }

  class Memory {
    const max: nat
    var used: nat
    ghost var blocks: map<Address, nat>

    constructor (max: nat)
      requires 0 < max < WORD
      ensures this.max == max && blocks == map[] && Accounted()
    {
      this.max := max;
      used := 0;
      blocks := map[];
    }

    ghost predicate Accounted()
      reads this
    {
      used == Total(blocks) <= max < WORD
    }

    /**
      * The allocator that Lua calls. Before Lua 5.2, osize is the size of the old block; from then on it is not, when
      * there is no old block. The answer of realloc is a parameter: no memory, or a block that fits the address space.
      */
    method Allocate(ptr: Option<Address>, osize: nat, nsize: nat, fromLua52: bool, answer: Option<Address>)
        returns (result: Option<Address>)
      requires Accounted() && osize < WORD && nsize < WORD
      requires ptr.Some? ==> ptr.value in blocks && osize == blocks[ptr.value]
      requires ptr.None? && !fromLua52 ==> osize == 0
      requires answer.Some? ==> answer.value !in Freed(blocks, ptr)
      requires answer.Some? ==> Total(Freed(blocks, ptr)) + nsize < WORD
      modifies this
      ensures Accounted()
      ensures var fits := Total(old(blocks)) - SizeOf(old(blocks), ptr) + nsize <= max;
              result == if nsize > 0 && fits then answer else None
      ensures blocks == if nsize == 0 then Freed(old(blocks), ptr)
                        else if result.None? then old(blocks)
                        else Freed(old(blocks), ptr)[result.value := nsize]
      ensures 0 < nsize <= SizeOf(old(blocks), ptr) ==> result == answer
    {
      TotalFreed(blocks, ptr);
      var oldSize := if fromLua52 && ptr.None? then 0 else osize;
      if nsize == 0 {
        blocks := Freed(blocks, ptr);
        used := Wrap(used - oldSize);
        return None;
      }
      var newUsed := Wrap(used - oldSize + nsize);
      if newUsed > max {
        return None;
      }
      if answer.Some? {
        TotalWith(Freed(blocks, ptr), answer.value, nsize);
        blocks := Freed(blocks, ptr)[answer.value := nsize];
        used := newUsed;
      }
      return answer;
    }
  }
}
