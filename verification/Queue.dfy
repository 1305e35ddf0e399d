/** The linked queue itself: what the critical sections of `queue_enqueue` and `queue_dequeue` do to the nodes.
    PoolQueue puts it under the protocol. */
module Queue {

  class Node<T> {
    var value: T
    var left: Node?<T>
    var right: Node?<T>

    constructor (value: T)
      ensures this.value == value && left == null && right == null
    {
      this.value := value;
      left, right := null, null;
    }
  }

  class Queue<T> {
    var head: Node?<T>
    var tail: Node?<T>
    var size: nat
    ghost var spine: seq<Node<T>>  // the nodes from head to tail

    /** Head, tail, size and both links of every node agree with the spine. */
    ghost predicate Valid()
      reads this, set n | n in spine
    {
      && size == |spine|
      && (forall i, j :: 0 <= i < j < |spine| ==> spine[i] != spine[j])
      && head == (if spine == [] then null else spine[0])
      && tail == (if spine == [] then null else spine[|spine| - 1])
      && (forall i, j :: 0 <= i && j == i + 1 && j < |spine| ==>
          spine[i].right == spine[j] && spine[j].left == spine[i])
      && (spine != [] ==> spine[0].left == null && spine[|spine| - 1].right == null)
    }

    ghost function Contents(): (s: seq<T>)
      reads this, set n | n in spine
      ensures |s| == |spine| && forall i :: 0 <= i < |s| ==> s[i] == spine[i].value
    {
      seq(|spine|, i requires 0 <= i < |spine| reads this, set n | n in spine => spine[i].value)
    }

    constructor ()
      ensures Valid() && Contents() == [] && spine == []
    {
      head, tail, size := null, null, 0;
      spine := [];
    }

    /** The critical section of `queue_enqueue`. */
    method Enqueue(value: T)
      requires Valid()
      modifies this, set n | n in spine
      ensures Valid() && Contents() == old(Contents()) + [value]
      ensures |spine| > 0 && spine[..|spine| - 1] == old(spine) && fresh(spine[|spine| - 1])
    {
      var node := new Node(value);
      if head == null {
        head := node;
        tail := node;
        size := 1;
      } else {
        var last := tail;
        last.right := node;
        node.left := last;
        tail := node;
        size := size + 1;
      }
      spine := spine + [node];
      assert forall i :: 0 <= i < |old(spine)| ==> spine[i] == old(spine)[i];
    }

    /** The critical section of `queue_dequeue`, once the size is not 0. */
    method Dequeue() returns (output: T)
      requires Valid() && size > 0
      modifies this, set n | n in spine
      ensures Valid() && [output] + Contents() == old(Contents())
      ensures spine == old(spine)[1..]
    {
      var first := head;
      output := first.value;
      if size == 1 {
        head := null;
        tail := null;
        size := 0;
      } else {
        var next := first.right;
        assert next == spine[1] && first == spine[0];
        next.left := null;
        head := next;
        size := size - 1;
      }
      spine := spine[1..];
      assert forall i, j :: 0 <= i && j == i + 1 && j <= |spine| ==> spine[i] == old(spine)[j];
    }
  }
}
