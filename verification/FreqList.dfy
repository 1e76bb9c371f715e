/** The doubly linked frequency lists of include/LFU.h. */
module FreqLists {

  function Without<T>(s: seq<T>, at: nat): (r: seq<T>)
    requires at < |s|
    ensures |r| == |s| - 1
    ensures forall i :: 0 <= i < |r| ==> r[i] == if i < at then s[i] else s[i + 1]
  {
    s[..at] + s[at + 1..]
  }

  function BeforeLast<T>(s: seq<T>, x: T): (r: seq<T>)
    requires s != []
    ensures |r| == |s| + 1
    ensures forall i :: 0 <= i < |s| - 1 ==> r[i] == s[i]
    ensures r[|s| - 1] == x && r[|s|] == s[|s| - 1]
  {
    s[..|s| - 1] + [x, s[|s| - 1]]
  }

  class Node<K(0), V(0)> {
    var freq: int
    const key: K
    var value: V
    var pre: Node?<K, V>
    var next: Node?<K, V>
    ghost var owner: FreqList?<K, V>  // the list this node is linked into
    ghost var since: nat              // when it was linked there

    /** The default constructor; `blank` is what it leaves in the key. */
    constructor Sentinel(blank: K)
      ensures freq == 1 && key == blank && pre == null && next == null && owner == null
    {
      freq, key := 1, blank;
      pre, next, owner, since := null, null, null, 0;
    }

    constructor (k: K, v: V)
      ensures freq == 1 && key == k && value == v && pre == null && next == null && owner == null && since == 0
    {
      freq, key, value := 1, k, v;
      pre, next, owner, since := null, null, null, 0;
    }
  }

  class FreqList<K(0), V(0)> {
    const freq: int
    const head: Node<K, V>
    const tail: Node<K, V>
    ghost var chain: seq<Node<K, V>>  // head, the members in order, tail
    ghost var cells: set<Node<K, V>>  // the same nodes, as a set

    ghost predicate Valid()
      reads this`chain, this`cells, cells`owner, cells`pre, cells`next, cells`freq
    {
      && |chain| >= 2 && chain[0] == head && chain[|chain| - 1] == tail
      && (forall x :: x in cells ==> x.owner == this)
      && (forall i :: 0 <= i < |chain| ==> chain[i] in cells)
      && tail.next == null && tail.freq == 1
      && (forall i, j :: 0 <= i < j < |chain| ==> chain[i] != chain[j])
      && (forall i {:trigger chain[i].next} :: 0 <= i < |chain| - 1 ==> chain[i].next == chain[i + 1])
      && (forall i {:trigger chain[i].pre} :: 0 < i < |chain| ==> chain[i].pre == chain[i - 1])
    }

    constructor (n: int, blank: K)
      ensures Valid() && freq == n && chain == [head, tail] && cells == {head, tail} && fresh(cells)
      ensures tail.key == blank
    {
      freq := n;
      var h := new Node<K, V>.Sentinel(blank);
      var t := new Node<K, V>.Sentinel(blank);
      head, tail := h, t;
      chain, cells := [h, t], {h, t};
      new;
      h.next, t.pre := t, h;
      h.owner, t.owner := this, this;
    }

    /** isEmpty(). */
    predicate IsEmpty()
      requires Valid()
      reads this`chain, this`cells, cells`owner, cells`pre, cells`next, cells`freq
      ensures IsEmpty() <==> |chain| == 2
    {
      head.next == tail
    }

    /** getFirstNode(). */
    function First(): (node: Node<K, V>)
      requires Valid()
      reads this`chain, this`cells, cells`owner, cells`pre, cells`next, cells`freq
      ensures node == chain[1]
    {
      assert chain[0].next == chain[1];
      head.next
    }

    /** addNode(): links a loose node in front of the tail. */
    method AddNode(node: Node<K, V>)
      requires Valid() && node.owner == null
      modifies this`chain, this`cells, node`pre, node`next, node`owner, cells`pre, cells`next
      ensures Valid() && cells == old(cells) + {node}
      ensures chain == BeforeLast(old(chain), node)
    {
      node.pre := tail.pre;
      node.next := tail;
      tail.pre.next := node;
      tail.pre := node;
      node.owner, cells := this, cells + {node};
      chain := BeforeLast(chain, node);
    }

    /** removeNode(): unlinks a member; a node without a successor, such as a tail, is left alone. */
    method RemoveNode(node: Node<K, V>, ghost at: nat)
      requires Valid() && (node.next != null ==> 0 < at < |chain| - 1 && chain[at] == node)
      modifies this`chain, this`cells, node`owner, cells`pre, cells`next
      ensures Valid()
      ensures if old(node.next) == null then unchanged(this) && unchanged(old(cells)) && unchanged(node)
              else && cells == old(cells) - {node} && chain == Without(old(chain), at)
                   && node.owner == null && node.pre == null && node.next == null
    {
      if node.pre == null || node.next == null { return; }
      node.pre.next := node.next;
      node.next.pre := node.pre;
      node.pre := null;
      node.next := null;
      node.owner, cells := null, cells - {node};
      chain := Without(chain, at);
    }
  }
}
