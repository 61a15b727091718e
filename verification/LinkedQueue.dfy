/** The doubly linked queue: values enter at the head and leave at the tail. */
module LinkedQueue {
  datatype Result<T> = Taken(value: T) | Empty

  function Reverse<T>(s: seq<T>): (r: seq<T>)
    ensures |r| == |s| && forall i :: 0 <= i < |s| ==> r[i] == s[|s| - 1 - i]
  {
    if s == [] then [] else [s[|s| - 1]] + Reverse(s[..|s| - 1])
  }

  class QueueNode<T> {
    const value: T
    var prev: QueueNode?<T>
    var next: QueueNode?<T>

    constructor (value: T)
      ensures this.value == value && prev == null && next == null
    {
      this.value := value;
      prev := null;
      next := null;
    }
  }

  class Queue<T> {
    var head: QueueNode?<T>
    var tail: QueueNode?<T>
    var size: int
    ghost var nodes: seq<QueueNode<T>>   // from the tail, the oldest, to the head
    ghost var repr: set<QueueNode<T>>

    /** The two chains are each other's reverse: `prev` leads to the younger node, `next` to the older one. */
    ghost predicate Valid()
      reads this, repr
    {
      && size == |nodes| && (forall n :: n in nodes ==> n in repr)
      && (forall i, j :: 0 <= i < j < |nodes| ==> nodes[i] != nodes[j])
      && (forall i, j :: 0 <= i < |nodes| && j == i + 1 < |nodes| ==> nodes[i].prev == nodes[j] && nodes[j].next == nodes[i])
      && (if nodes == [] then head == null && tail == null
          else head == nodes[|nodes| - 1] && tail == nodes[0] && head.prev == null && tail.next == null)
    }

    ghost function Contents(): (s: seq<T>)
      requires forall n :: n in nodes ==> n in repr
      reads this, repr
      ensures |s| == |nodes|
    {
      seq(|nodes|, i requires 0 <= i < |nodes| reads this, repr => nodes[i].value)
    }

    constructor ()
      ensures Valid() && Contents() == [] && fresh(repr)
    {
      head := null;
      tail := null;
      size := 0;
      nodes := [];
      repr := {};
    }

    method Enqueue(value: T)
      requires Valid()
      modifies this, repr
      ensures Valid() && Contents() == old(Contents()) + [value]
      ensures fresh(repr - old(repr))
    {
      var node := new QueueNode(value);
      node.next := head;
      head := node;
      if node.next != null {
        node.next.prev := head;
      }
      if tail == null {
        tail := node;
      }
      size := size + 1;
      nodes := nodes + [node];
      repr := repr + {node};
    }

    method Dequeue() returns (r: Result<T>)
      requires Valid()
      modifies this, repr
      ensures Valid() && repr == old(repr)
      ensures old(Contents()) == [] ==> r == Empty && Contents() == []
      ensures old(Contents()) != [] ==> r == Taken(old(Contents())[0]) && Contents() == old(Contents())[1..]
    {
      if tail == null {
        return Empty;
      }
      var node := tail;
      assert |nodes| > 1 ==> tail.prev == nodes[1];
      if tail.prev == null {
        head := null;
        tail := null;
      } else {
        tail.prev.next := null;
        tail := tail.prev;
      }
      nodes := nodes[1..];
      size := size - 1;
      r := Taken(node.value);
    }

    /** The walk along `next` from the head, as the output operator does it. */
    method Printed() returns (values: seq<T>)
      requires Valid()
      ensures values == Reverse(Contents())
    {
      values := [];
      var node := head;
      ghost var left := |nodes|;
      ghost var all := Reverse(Contents());
      while node != null
        invariant 0 <= left <= |nodes| && node == if left > 0 then nodes[left - 1] else null
        invariant values == all[..|nodes| - left]
        decreases left
      {
        values := values + [node.value];
        node := node.next;
        left := left - 1;
      }
    }
  }

  // ----- Any mix of operations

  datatype Operation<T> = Put(value: T) | Take

  /** What a queue holds and has given out after some operations. */
  function After<T>(s: seq<T>, operations: seq<Operation<T>>): (seq<T>, seq<T>)
    decreases |operations|
  {
    if operations == [] then (s, [])
    else
      match operations[0]
      case Put(value) => After(s + [value], operations[1..])
      case Take =>
        if s == [] then After(s, operations[1..])
        else
          var (left, out) := After(s[1..], operations[1..]);
          (left, [s[0]] + out)
  }

  function Puts<T>(operations: seq<Operation<T>>): seq<T> {
    if operations == [] then []
    else (match operations[0] case Put(value) => [value] case Take => []) + Puts(operations[1..])
  }

  /** Values leave in exactly the order they entered, and none is lost. */
  lemma {:induction false} FirstInFirstOut<T>(s: seq<T>, operations: seq<Operation<T>>)
    ensures var (left, out) := After(s, operations); out + left == s + Puts(operations)
    decreases |operations|
  {
    if operations != [] {
      var rest := operations[1..];
      match operations[0]
      case Put(value) =>
        FirstInFirstOut(s + [value], rest);
        assert s + [value] + Puts(rest) == s + ([value] + Puts(rest));
      case Take =>
        if s == [] {
          FirstInFirstOut(s, rest);
        } else {
          FirstInFirstOut(s[1..], rest);
          var (left, out) := After(s[1..], rest);
          assert [s[0]] + out + left == [s[0]] + (out + left);
          assert s + Puts(rest) == [s[0]] + (s[1..] + Puts(rest));
        }
    }
  }

  /** The linked queue under any mix of operations. */
  method Operate<T>(queue: Queue<T>, operations: seq<Operation<T>>) returns (out: seq<T>)
    requires queue.Valid()
    modifies queue, queue.repr
    ensures queue.Valid() && queue.Contents() == After(old(queue.Contents()), operations).0
    ensures out == After(old(queue.Contents()), operations).1
  {
    out := [];
    var i := 0;
    ghost var whole := After(queue.Contents(), operations);
    assert operations[0..] == operations;
    while i < |operations|
      invariant i <= |operations| && queue.Valid() && fresh(queue.repr - old(queue.repr))
      invariant var rest := After(queue.Contents(), operations[i..]); rest.0 == whole.0 && out + rest.1 == whole.1
    {
      assert operations[i..][0] == operations[i] && operations[i..][1..] == operations[i + 1..];
      match operations[i] {
        case Put(value) => queue.Enqueue(value);
        case Take =>
          var r := queue.Dequeue();
          if r.Taken? {
            ghost var later := After(queue.Contents(), operations[i + 1..]).1;
            assert out + ([r.value] + later) == (out + [r.value]) + later;
            out := out + [r.value];
          }
      }
      i := i + 1;
    }
    assert operations[i..] == [] && out + [] == out;
  }
}
