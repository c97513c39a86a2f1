/** The node of the intrusive red-black tree: one mutable object per struct rbtree_node. */
module RbNode {
  const TWO_64: int := 0x1_0000_0000_0000_0000
  const TWO_63: int := 0x8000_0000_0000_0000

  /** rbtree_key is an unsigned 64-bit word. */
  type Key = k: int | 0 <= k < TWO_64

  /** The conversion of a word to rbtree_key_int, a signed 64-bit word. */
  function Signed64(k: Key): int {
    if k < TWO_63 then k else k - TWO_64
  }

  /** Subtraction of words wraps around. */
  function WrapSub(a: Key, b: Key): Key {
    (a - b) % TWO_64
  }

  /** So does addition. */
  function WrapAdd(a: Key, b: Key): Key {
    (a + b) % TWO_64
  }

  /** The function pointer that rbtree_init stores in the tree. */
  datatype InsertPt = InsertValue | InsertTimerValue

  /** Whether a descent with key k turns left at a node with key at. */
  predicate GoesLeft(insert: InsertPt, k: Key, at: Key) {
    match insert
    case InsertValue => k < at
    case InsertTimerValue => Signed64(WrapSub(k, at)) < 0
  }

  datatype Color = Black | Red

  class Node {
    var key: Key
    var left: Node?
    var right: Node?
    var parent: Node?
    var color: Color

    /** Allocation: only the key is given; links and colour hold whatever they hold. */
    constructor (k: Key)
      ensures key == k
    {
      key := k;
    }
  }
}
