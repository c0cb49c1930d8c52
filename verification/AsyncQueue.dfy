/** An asyncio queue seen between awaits: `put_nowait` and `get_nowait` on a bounded FIFO. */
module AsyncQueue {
  import opened Bytes

  predicate IsFull(length: nat, maxsize: nat) { 0 < maxsize <= length }

  /** The queue contents after `put_nowait` of each of `more`; an item that finds it full is dropped. */
  function Offer<T>(items: seq<T>, maxsize: nat, more: seq<T>): seq<T>
    decreases more
  {
    if more == [] then items
    else Offer(if IsFull(|items|, maxsize) then items else items + [more[0]], maxsize, more[1..])
  }

  /** With room for everything nothing is dropped. */
  lemma {:induction false} OfferWithRoom<T>(items: seq<T>, maxsize: nat, more: seq<T>)
    requires maxsize == 0 || |items| + |more| <= maxsize
    ensures Offer(items, maxsize, more) == items + more
    decreases more
  {
    if more != [] {
      OfferWithRoom(items + [more[0]], maxsize, more[1..]);
      assert items + more == items + [more[0]] + more[1..];
    }
  }

  /** A bounded queue keeps what was there and the first of the rest that fit; what comes later is dropped. */
  lemma {:induction false} OfferKeepsFirst<T>(items: seq<T>, maxsize: nat, more: seq<T>)
    requires 0 < maxsize && |items| <= maxsize
    ensures Offer(items, maxsize, more)
            == if |items + more| <= maxsize then items + more else (items + more)[..maxsize]
    decreases more
  {
    if |items| + |more| <= maxsize {
      OfferWithRoom(items, maxsize, more);
    } else if |items| < maxsize {
      OfferKeepsFirst(items + [more[0]], maxsize, more[1..]);
      assert items + more == items + [more[0]] + more[1..];
    } else {
      OfferKeepsFirst(items, maxsize, more[1..]);
      assert (items + more)[..maxsize] == items;
      assert |more[1..]| > 0 ==> (items + more[1..])[..maxsize] == items;
      assert more[1..] == [] ==> items + more[1..] == items;
    }
  }

  class Queue<T> {
    const maxsize: nat  // 0 means unbounded
    var items: seq<T>

    constructor (maxsize: nat)
      ensures this.maxsize == maxsize && items == []
    {
      this.maxsize := maxsize;
      items := [];
    }

    method PutNowait(item: T) returns (ok: bool)
      modifies this
      ensures ok <==> !IsFull(|old(items)|, maxsize)
      ensures items == Offer(old(items), maxsize, [item])
    {
      assert [item][1..] == [];
      ok := !IsFull(|items|, maxsize);
      if ok {
        items := items + [item];
      }
    }

    method GetNowait() returns (item: Option<T>)
      modifies this
      ensures old(items) == [] ==> item == None && items == []
      ensures old(items) != [] ==> item == Some(old(items)[0]) && items == old(items)[1..]
    {
      if items == [] {
        item := None;
      } else {
        item := Some(items[0]);
        items := items[1..];
      }
    }
  }
}
