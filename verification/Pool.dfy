/** The fixed table of work items and its free stack (struct rtap_device_kwork_tbl). */
module Pool {
  import opened Options

  const POOL_SIZE := 16

  /** A work item, named by its index in the table. */
  type Item = i: nat | i < POOL_SIZE

  /** The free stack; an absent slot is a NULL pointer. */
  datatype FreeStack = FreeStack(slots: seq<Option<Item>>, index: nat) {
    /** The bounds the array accesses need. */
    predicate InBounds() {
      |slots| == POOL_SIZE && index <= POOL_SIZE
    }

    /** Slots below the index are filled, slots from there on are NULL. */
    predicate Dense() {
      && InBounds()
      && (forall k :: 0 <= k < index ==> slots[k].Some?)
      && (forall k :: index <= k < POOL_SIZE ==> slots[k].None?)
    }
  }

  function Full(): FreeStack {
    FreeStack(seq(POOL_SIZE, i requires 0 <= i < POOL_SIZE => Some(i as Item)), POOL_SIZE)
  }

  /** What is left on the stack after a pop; popping an empty stack changes nothing. */
  function Popped(f: FreeStack): FreeStack
    requires f.InBounds()
  {
    if f.index == 0 then f else FreeStack(f.slots[f.index - 1 := None], f.index - 1)
  }

  /** The item a pop yields. */
  function Top(f: FreeStack): Option<Item>
    requires f.InBounds()
  {
    if f.index == 0 then None else f.slots[f.index - 1]
  }

  function Pushed(f: FreeStack, i: Item): FreeStack
    requires f.InBounds() && f.index < POOL_SIZE
  {
    FreeStack(f.slots[f.index := Some(i)], f.index + 1)
  }

  /** Push and pop undo each other, and both keep the stack dense. */
  lemma PushPop(f: FreeStack, i: Item)
    requires f.Dense()
    ensures f.index < POOL_SIZE ==>
      Pushed(f, i).Dense() && Top(Pushed(f, i)) == Some(i) && Popped(Pushed(f, i)) == f
    ensures f.index > 0 ==>
      Popped(f).Dense() && Top(f).Some? && Pushed(Popped(f), Top(f).value) == f
  {
    if f.index < POOL_SIZE {
      assert f.slots[f.index := Some(i)][f.index := None] == f.slots;
    }
    if f.index > 0 {
      assert f.slots[f.index - 1 := None][f.index - 1 := Top(f)] == f.slots;
    }
  }

  class KworkTable {
    var index: nat
    var freelist: array<Option<Item>>

    ghost function View(): FreeStack
      reads this, freelist
    {
      FreeStack(freelist[..], index)
    }

    /** rtap_device_init: every item goes on the stack. */
    constructor ()
      ensures fresh(freelist) && View() == Full() && View().Dense()
    {
      index := 0;
      freelist := new Option<Item>[POOL_SIZE](_ => None);
      new;
      for i := 0 to POOL_SIZE
        invariant fresh(freelist) && freelist.Length == POOL_SIZE && index == i
        invariant forall k :: 0 <= k < i ==> freelist[k] == Some(k)
      {
        freelist[i] := Some(i);
        index := index + 1;
      }
      assert freelist[..] == Full().slots;
    }

    /** rtap_device_kwork_alloc. */
    method Alloc() returns (wrk: Option<Item>)
      requires View().InBounds()
      modifies this`index, freelist
      ensures wrk == Top(old(View())) && View() == Popped(old(View()))
    {
      wrk := None;
      if index > 0 {
        index := index - 1;
        wrk := freelist[index];
        freelist[index] := None;
      }
    }

    /** rtap_device_kwork_free. The source does not test the bound that the array write needs. */
    method Free(wrk: Option<Item>)
      requires View().InBounds()
      requires wrk.Some? ==> index < POOL_SIZE
      modifies this`index, freelist
      ensures View() == if wrk.Some? then Pushed(old(View()), wrk.value) else old(View())
    {
      if wrk.Some? {
        freelist[index] := wrk;
        index := index + 1;
      }
    }
  }
}
