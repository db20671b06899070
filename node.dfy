// The chain of nodes: each node builds its successor when constructed and
// links it back to itself, so constructing the node with index `i` builds
// the nodes `i .. NodeCount - 1`.

module NodeChain {
  import opened ScaleStep

  /** The number of nodes in the chain (`nodes`). */
  const NodeCount: int := 5

  /** How many nodes the construction of the node with index `i` builds. */
  function ChainLength(i: int): nat
  {
    if i < NodeCount - 1 then NodeCount - i else 1
  }

  class RCSNode {
    var prev: RCSNode?
    var next: RCSNode?
    const state: State
    const i: int

    /** The nodes from this one to the end of the chain, and their set. */
    ghost var Chain: seq<RCSNode>
    ghost var Repr: set<RCSNode>

    /**
     * Every node before the end owns a successor with the next index whose
     * `prev` is this node; the last one has none. The nodes own distinct states.
     */
    ghost predicate Valid()
      reads this, Repr
      decreases Repr
    {
      this in Repr &&
      if i < NodeCount - 1 then
        next != null && next in Repr && this !in next.Repr &&
        Repr == {this} + next.Repr &&
        next.i == i + 1 && next.prev == this &&
        Chain == [this] + next.Chain &&
        (forall k :: 0 <= k < |next.Chain| ==> next.Chain[k].state != state) &&
        next.Valid()
      else
        next == null && Repr == {this} && Chain == [this]
    }

    /** The `constructor` together with `addNeighbor`. */
    constructor (i: int)
      ensures Valid() && fresh(Repr) && this.i == i && prev == null
      ensures |Chain| == ChainLength(i)
      ensures forall k :: 0 <= k < |Chain| ==> fresh(Chain[k].state) && Chain[k].state.Value() == Initial
      decreases NodeCount - i
    {
      this.i := i;
      state := new State();
      var successor: RCSNode? := null;
      if i < NodeCount - 1 {
        successor := new RCSNode(i + 1);
      }
      next := successor;
      prev := null;
      Chain := [this];
      Repr := {this};
      new;
      if successor != null {
        successor.prev := this;
        Chain := [this] + successor.Chain;
        Repr := {this} + successor.Repr;
      }
    }

    /** Delegates to `state.update`; returns how many times the callback ran. */
    method Update() returns (calls: nat)
      modifies state
      ensures Outcome(state.Value(), calls) == Tick(old(state.Value()))
      ensures old(Valid()) ==> Valid()
    {
      calls := state.Update();
    }

    /** Delegates to `state.startUpdating`; returns how many times the callback ran. */
    method StartUpdating() returns (calls: nat)
      modifies state
      ensures Outcome(state.Value(), calls) == Begin(old(state.Value()))
      ensures old(Valid()) ==> Valid()
    {
      calls := state.StartUpdating();
    }

    /**
     * `getNext`: the neighbour towards `dir` (`next` for 1, `prev` for anything
     * else), or this node after running the boundary callback once.
     */
    method GetNext(dir: real) returns (r: RCSNode, calls: nat)
      ensures Toward(this, dir) != null ==> r == Toward(this, dir) && calls == 0
      ensures Toward(this, dir) == null ==> r == this && calls == 1
    {
      var curr := prev;
      if dir == 1.0 {
        curr := next;
      }
      if curr != null {
        return curr, 0;
      }
      return this, 1;
    }
  }

  /** The link `getNext` follows from `n` for direction `dir`. */
  function Toward(n: RCSNode, dir: real): RCSNode?
    reads n
  {
    if dir == 1.0 then n.next else n.prev
  }

  /** The link facts of a built chain, node by node. */
  lemma {:induction false} Linked(n: RCSNode)
    requires n.Valid()
    decreases n.Repr
    ensures |n.Chain| == ChainLength(n.i) && n.Chain[0] == n
    ensures forall k :: 0 <= k < |n.Chain| ==> n.Chain[k] in n.Repr && n.Chain[k].i == n.i + k
    ensures forall k :: 0 <= k < |n.Chain| - 1 ==> n.Chain[k].next == n.Chain[k + 1]
    ensures forall k :: 0 <= k < |n.Chain| - 1 ==> n.Chain[k + 1].prev == n.Chain[k]
    ensures n.Chain[|n.Chain| - 1].next == null
    ensures forall j, k :: 0 <= j < k < |n.Chain| ==> n.Chain[j].state != n.Chain[k].state
  {
    if n.next != null {
      Linked(n.next);
      forall j, k | 0 <= j < k < |n.Chain|
        ensures n.Chain[j].state != n.Chain[k].state
      {
        if j > 0 {
          assert n.Chain[j] == n.next.Chain[j - 1] && n.Chain[k] == n.next.Chain[k - 1];
        } else {
          assert n.Chain[k] == n.next.Chain[k - 1];
        }
      }
    }
  }

  /**
   * In a chain built from a root that has no `prev`, `getNext` reaches the
   * boundary exactly at the last node going forward and at the root going
   * backward; otherwise it moves to the node one index further along `dir`.
   */
  lemma Neighbours(root: RCSNode, k: int, dir: real)
    requires root.Valid() && root.prev == null && 0 <= k < |root.Chain|
    ensures Toward(root.Chain[k], dir) == null <==>
              (dir == 1.0 && k == |root.Chain| - 1) || (dir != 1.0 && k == 0)
    ensures dir == 1.0 && k < |root.Chain| - 1 ==>
              Toward(root.Chain[k], dir) == root.Chain[k + 1] && root.Chain[k + 1].i == root.Chain[k].i + 1
    ensures dir != 1.0 && 0 < k ==>
              Toward(root.Chain[k], dir) == root.Chain[k - 1] && root.Chain[k - 1].i == root.Chain[k].i - 1
  {
    Linked(root);
    var last := |root.Chain| - 1;
    if k < last {
      assert root.Chain[k].next == root.Chain[k + 1];
    }
    if 0 < k {
      assert root.Chain[k].prev == root.Chain[k - 1];
    }
  }

  /** A chain built from index 0 holds the nodes 0 .. NodeCount - 1, the last without `next`. */
  lemma FullChain(root: RCSNode)
    requires root.Valid() && root.i == 0
    ensures |root.Chain| == NodeCount
    ensures forall k :: 0 <= k < NodeCount ==> root.Chain[k].i == k
    ensures root.Chain[NodeCount - 1].next == null
  {
    Linked(root);
  }

  /**
   * The factor of mark `j` drawn by `draw`: the first mark follows the lower
   * half of the scale, the second the upper half, each stretched to [0, 1].
   */
  function MarkFactor(scale: real, j: int): (r: real)
    ensures 0.0 <= r <= 1.0
    ensures j == 0 && 0.0 <= scale <= 0.5 ==> r == 2.0 * scale
    ensures j == 1 && 0.5 <= scale <= 1.0 ==> r == 2.0 * scale - 1.0
    ensures j == 1 && scale <= 0.5 ==> r == 0.0
    ensures j == 0 && 0.5 <= scale ==> r == 1.0
  {
    var clamped := if scale - 0.5 * (j as real) < 0.0 then 0.0 else scale - 0.5 * (j as real);
    (if clamped < 0.5 then clamped else 0.5) * 2.0
  }

  /** A settled node draws no marks at 0 and both marks in full at 1. */
  lemma SettledMarks(p: Progress)
    requires Inv(p) && Idle(p)
    ensures p.scale == 0.0 ==> MarkFactor(p.scale, 0) == 0.0 && MarkFactor(p.scale, 1) == 0.0
    ensures p.scale == 1.0 ==> MarkFactor(p.scale, 0) == 1.0 && MarkFactor(p.scale, 1) == 1.0
  {
  }
}
