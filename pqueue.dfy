/**
 * Python's `heapq` and `queue.PriorityQueue` as the planners use them.
 * Both pop the entry whose tuple is least in Python's tuple order, and
 * every entry the planners push is a tuple of numbers (a cell or state
 * flattened into its coordinates), so an entry is modelled by its key, a
 * sequence of numbers, compared lexicographically with a proper prefix
 * counting as smaller.
 */
module PriorityQueue {

  /** Python's `<=` on tuples of numbers. */
  predicate KeyLe(a: seq<real>, b: seq<real>)
    decreases |a|
  {
    |a| == 0 || (|b| > 0 && (a[0] < b[0] || (a[0] == b[0] && KeyLe(a[1..], b[1..]))))
  }

  lemma {:induction false} KeyLeRefl(a: seq<real>)
    ensures KeyLe(a, a)
    decreases |a|
  {
    if |a| > 0 {
      KeyLeRefl(a[1..]);
    }
  }

  lemma {:induction false} KeyLeTotal(a: seq<real>, b: seq<real>)
    ensures KeyLe(a, b) || KeyLe(b, a)
    decreases |a|
  {
    if |a| > 0 && |b| > 0 && a[0] == b[0] {
      KeyLeTotal(a[1..], b[1..]);
    }
  }

  lemma {:induction false} KeyLeTrans(a: seq<real>, b: seq<real>, c: seq<real>)
    requires KeyLe(a, b) && KeyLe(b, c)
    ensures KeyLe(a, c)
    decreases |a|
  {
    if |a| > 0 && a[0] == b[0] && b[0] == c[0] {
      KeyLeTrans(a[1..], b[1..], c[1..]);
    }
  }

  lemma {:induction false} KeyLeAntisym(a: seq<real>, b: seq<real>)
    requires KeyLe(a, b) && KeyLe(b, a)
    ensures a == b
    decreases |a|
  {
    if |a| > 0 {
      KeyLeAntisym(a[1..], b[1..]);
      assert a == [a[0]] + a[1..] && b == [b[0]] + b[1..];
    }
  }

  /** Keys that agree on their first component compare by the rest. */
  lemma KeyLeHead(a: seq<real>, b: seq<real>)
    requires |a| > 0 && |b| > 0 && KeyLe(a, b)
    ensures a[0] <= b[0]
  {
  }

  /** A pending entry: its comparison key and the item it carries. */
  datatype Entry<T> = Entry(key: seq<real>, item: T)

  /** `q[i]` has a least key in `q`. */
  predicate IsLeast<T>(q: seq<Entry<T>>, i: int)
  {
    0 <= i < |q| && forall j :: 0 <= j < |q| ==> KeyLe(q[i].key, q[j].key)
  }

  /**
   * The position of the entry `heappop` / `PriorityQueue.get` returns:
   * one with a least key, the first such in queue order.
   */
  method PopIndex<T>(q: seq<Entry<T>>) returns (i: int)
    requires |q| > 0
    ensures IsLeast(q, i)
    ensures forall j :: 0 <= j < i ==> !KeyLe(q[j].key, q[i].key)
  {
    i := 0;
    var k := 1;
    KeyLeRefl(q[0].key);
    while k < |q|
      invariant 0 <= i < k <= |q|
      invariant forall j :: 0 <= j < k ==> KeyLe(q[i].key, q[j].key)
      invariant forall j :: 0 <= j < i ==> !KeyLe(q[j].key, q[i].key)
    {
      if !KeyLe(q[i].key, q[k].key) {
        KeyLeTotal(q[i].key, q[k].key);
        forall j | 0 <= j < k
          ensures KeyLe(q[k].key, q[j].key)
        {
          KeyLeTrans(q[k].key, q[i].key, q[j].key);
        }
        forall j | 0 <= j < k
          ensures !KeyLe(q[j].key, q[k].key)
        {
          if KeyLe(q[j].key, q[k].key) {
            KeyLeTrans(q[i].key, q[j].key, q[k].key);
          }
        }
        KeyLeRefl(q[k].key);
        i := k;
      }
      k := k + 1;
    }
  }

  /** The items of the pending entries. */
  function ItemsOf<T>(q: seq<Entry<T>>): (s: set<T>)
    ensures forall k :: 0 <= k < |q| ==> q[k].item in s
    ensures forall x :: x in s ==> exists k :: 0 <= k < |q| && q[k].item == x
  {
    set k | 0 <= k < |q| :: q[k].item
  }

  /** The queue after the entry at `i` has been taken out. */
  function RemoveAt<T>(q: seq<Entry<T>>, i: int): (r: seq<Entry<T>>)
    requires 0 <= i < |q|
    ensures |r| == |q| - 1
    ensures multiset(r) + multiset{q[i]} == multiset(q)
    ensures forall j :: 0 <= j < |r| ==> r[j] == (if j < i then q[j] else q[j + 1])
  {
    assert q == q[..i] + [q[i]] + q[i + 1..];
    q[..i] + q[i + 1..]
  }

  /** Removing one entry keeps every other entry. */
  lemma Removed<T>(q: seq<Entry<T>>, i: int)
    requires 0 <= i < |q|
    ensures forall e :: e in RemoveAt(q, i) ==> e in q
    ensures forall e :: e in q && e != q[i] ==> e in RemoveAt(q, i)
  {
    var r := RemoveAt(q, i);
    forall e | e in r
      ensures e in q
    {
      assert multiset(r)[e] > 0;
    }
    forall e | e in q && e != q[i]
      ensures e in r
    {
      assert multiset(q)[e] > 0;
    }
  }
}
