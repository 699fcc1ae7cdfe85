// LockfreeQueueOfSharedPtrs::push and pop when nobody interferes, on heap allocated shared
// pointers: both variants are the same first in, first out queue. RecyclingQueue has the
// interleaved steps.
module SharedPtrQueue {
  import opened Wrappers
  import opened Lists

  type Item = nat

  // boost::shared_ptr<T> on the heap
  class SharedPtr {
    var owned: Option<Item>

    constructor (x: Item)
      ensures owned == Some(x)
    {
      owned := Some(x);
    }

    method Reset()
      modifies this
      ensures owned == None
    {
      owned := None;
    }
  }

  ghost predicate AllOwn(xs: seq<SharedPtr>)
    reads xs
  {
    forall i | 0 <= i < |xs| :: xs[i].owned.Some?
  }

  function ItemsOf(xs: seq<SharedPtr>): (items: seq<Item>)
    requires AllOwn(xs)
    reads xs
    ensures |items| == |xs| && forall i | 0 <= i < |xs| :: items[i] == xs[i].owned.value
  {
    seq(|xs|, i requires 0 <= i < |xs| reads xs requires xs[i].owned.Some? => xs[i].owned.value)
  }

  // Whether a push to a queue finds a node is up to boost and memory: hasRoom.
  class SimpleQueue {
    var queue: seq<SharedPtr>

    ghost predicate Valid()
      reads this, queue
    {
      Distinct(queue) && AllOwn(queue)
    }

    function Contents(): seq<Item>
      requires Valid()
      reads this, queue
    {
      ItemsOf(queue)
    }

    constructor ()
      ensures Valid() && Contents() == []
    {
      queue := [];
    }

    method Push(toPush: Item, hasRoom: bool) returns (ok: bool)
      requires Valid()
      modifies this
      ensures Valid() && ok == hasRoom
      ensures Contents() == if ok then old(Contents()) + [toPush] else old(Contents())
    {
      var heapAllocated := new SharedPtr(toPush);
      if !hasRoom {
        return false;
      }
      queue := queue + [heapAllocated];
      return true;
    }

    method Pop() returns (popTo: Option<Item>)
      requires Valid()
      modifies this
      ensures Valid()
      ensures old(Contents()) == [] ==> popTo == None && Contents() == []
      ensures old(Contents()) != [] ==> popTo.Some? && old(Contents()) == [popTo.value] + Contents()
    {
      if queue == [] {
        return None;
      }
      var stored := queue[0];
      queue := queue[1..];
      popTo := stored.owned;
    }
  }

  class RecyclingSharedPtrQueue {
    var queue: seq<SharedPtr>
    var recycledQueue: seq<SharedPtr>

    ghost predicate Valid()
      reads this, queue, recycledQueue
    {
      && Distinct(queue + recycledQueue) && AllOwn(queue)
      && forall i | 0 <= i < |recycledQueue| :: recycledQueue[i].owned == None
    }

    function Contents(): seq<Item>
      requires Valid()
      reads this, queue, recycledQueue
    {
      ItemsOf(queue)
    }

    constructor ()
      ensures Valid() && Contents() == []
    {
      queue, recycledQueue := [], [];
    }

    method Recycle(heapAllocated: SharedPtr, recyclingHasRoom: bool)
      requires Valid() && heapAllocated !in queue + recycledQueue
      modifies this`recycledQueue, heapAllocated
      ensures Valid() && Contents() == old(Contents())
      ensures recycledQueue == old(recycledQueue) + if recyclingHasRoom then [heapAllocated] else []
    {
      heapAllocated.Reset();
      assert forall i | 0 <= i < |queue| :: queue[i] in queue + recycledQueue;
      assert forall i | 0 <= i < |recycledQueue| :: recycledQueue[i] in queue + recycledQueue;
      if recyclingHasRoom {
        ghost var before := queue + recycledQueue;
        recycledQueue := recycledQueue + [heapAllocated];
        assert queue + recycledQueue == before + [heapAllocated];
      }
      assert Contents() == old(Contents());
    }

    // A recycled cell or a new one, with the item in it.
    method TakeCell(toPush: Item) returns (heapAllocated: SharedPtr)
      requires Valid()
      modifies this`recycledQueue, recycledQueue
      ensures Valid() && Contents() == old(Contents()) && queue == old(queue)
      ensures heapAllocated !in queue + recycledQueue && heapAllocated.owned == Some(toPush)
      ensures heapAllocated in old(recycledQueue) || fresh(heapAllocated)
      ensures old(recycledQueue) != [] ==> old(recycledQueue) == [heapAllocated] + recycledQueue
      ensures old(recycledQueue) == [] ==> recycledQueue == [] && fresh(heapAllocated)
    {
      ghost var all := queue + recycledQueue;
      assert forall i | 0 <= i < |queue| :: queue[i] == all[i];
      assert forall i | 0 <= i < |recycledQueue| :: recycledQueue[i] == all[|queue| + i];
      if recycledQueue != [] {
        heapAllocated := recycledQueue[0];
        recycledQueue := recycledQueue[1..];
        heapAllocated.owned := Some(toPush);
      } else {
        heapAllocated := new SharedPtr(toPush);
      }
    }

    method Push(toPush: Item, hasRoom: bool, recyclingHasRoom: bool) returns (ok: bool)
      requires Valid()
      modifies this, recycledQueue
      ensures Valid() && ok == hasRoom
      ensures Contents() == if ok then old(Contents()) + [toPush] else old(Contents())
      ensures ok ==>
                |queue| > 0 && (if old(recycledQueue) == [] then recycledQueue == [] && fresh(queue[|queue| - 1])
                                else old(recycledQueue) == [queue[|queue| - 1]] + recycledQueue)
      ensures !ok && recyclingHasRoom ==>
                if old(recycledQueue) == [] then |recycledQueue| == 1 && fresh(recycledQueue[0])
                else recycledQueue == old(recycledQueue)[1..] + [old(recycledQueue)[0]]
      ensures !ok && !recyclingHasRoom ==> recycledQueue == if old(recycledQueue) == [] then [] else old(recycledQueue)[1..]
    {
      var heapAllocated := TakeCell(toPush);
      if !hasRoom {
        Recycle(heapAllocated, recyclingHasRoom);
        return false;
      }
      StillDistinct(queue, heapAllocated, recycledQueue);
      queue := queue + [heapAllocated];
      return true;
    }

    method Pop(recyclingHasRoom: bool) returns (popTo: Option<Item>)
      requires Valid()
      modifies this, queue
      ensures Valid()
      ensures old(Contents()) == [] ==> popTo == None && Contents() == []
      ensures old(Contents()) != [] ==> popTo.Some? && old(Contents()) == [popTo.value] + Contents()
      ensures recycledQueue
              == old(recycledQueue) + if old(queue) != [] && recyclingHasRoom then [old(queue)[0]] else []
    {
      if queue == [] {
        return None;
      }
      ghost var all := queue + recycledQueue;
      assert forall i | 0 <= i < |queue| :: queue[i] == all[i];
      assert forall i | 0 <= i < |recycledQueue| :: recycledQueue[i] == all[|queue| + i];
      var stored := queue[0];
      queue := queue[1..];
      popTo := stored.owned;
      assert old(Contents()) == [popTo.value] + Contents();
      Recycle(stored, recyclingHasRoom);
    }
  }

  lemma StillDistinct(a: seq<SharedPtr>, x: SharedPtr, b: seq<SharedPtr>)
    requires Distinct(a + b) && x !in a + b
    ensures Distinct(a + [x] + b)
  {
    var all, more := a + b, a + [x] + b;
    forall i, j | 0 <= i < j < |more| ensures more[i] != more[j] {
      var i', j' := if i < |a| then i else i - 1, if j < |a| then j else j - 1;
      assert i != |a| ==> more[i] == all[i'];
      assert j != |a| ==> more[j] == all[j'];
    }
  }
}
