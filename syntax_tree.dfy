// Concrete syntax trees as produced by tree-sitter, given to the model as
// values. A node is addressed by the path of child indices that leads to it
// from the root, so "the same node" is "the same path" and walking to a
// parent is dropping the last index.
module SyntaxTree {
  import opened Wrappers

  /** A tree-sitter point: 0-based row and 0-based column. */
  datatype Point = Point(row: int, column: int)

  /**
   * A node: its grammar kind, the field name under which it hangs in its
   * parent ("" when it has none), its span, its source text and its
   * children in order.
   */
  datatype Node = Node(kind: string, field: string, startPoint: Point, endPoint: Point, text: string, children: seq<Node>)

  /** tree-sitter `child_by_field_name`: the first child that carries field `f`. */
  function ChildByField(n: Node, f: string): (r: Option<Node>)
    ensures r.Some? ==> r.value in n.children && r.value.field == f
    ensures r.None? ==> forall i :: 0 <= i < |n.children| ==> n.children[i].field != f
  {
    FirstWithField(n.children, f)
  }

  function FirstWithField(cs: seq<Node>, f: string): (r: Option<Node>)
    ensures r.Some? ==> r.value in cs && r.value.field == f
    ensures r.None? ==> forall i :: 0 <= i < |cs| ==> cs[i].field != f
  {
    if |cs| == 0 then None
    else if cs[0].field == f then Some(cs[0])
    else FirstWithField(cs[1..], f)
  }

  /** `p` leads from `n` to a node: each index is in range at its level. */
  predicate ValidPath(n: Node, p: seq<nat>)
    decreases |p|
  {
    |p| == 0 || (p[0] < |n.children| && ValidPath(n.children[p[0]], p[1..]))
  }

  /** The node that path `p` leads to from `n`. */
  function At(n: Node, p: seq<nat>): Node
    requires ValidPath(n, p)
    decreases |p|
  {
    if |p| == 0 then n else At(n.children[p[0]], p[1..])
  }

  /** Following `p` and then `q` is following `p + q`. */
  lemma {:induction false} AtAppend(n: Node, p: seq<nat>, q: seq<nat>)
    requires ValidPath(n, p)
    ensures ValidPath(n, p + q) <==> ValidPath(At(n, p), q)
    ensures ValidPath(n, p + q) ==> At(n, p + q) == At(At(n, p), q)
    decreases |p|
  {
    if |p| > 0 {
      assert (p + q)[0] == p[0] && (p + q)[1..] == p[1..] + q;
      AtAppend(n.children[p[0]], p[1..], q);
    } else {
      assert p + q == q;
    }
  }

  /** Every prefix of a valid path is valid. */
  lemma PrefixValid(n: Node, p: seq<nat>, k: nat)
    requires ValidPath(n, p) && k <= |p|
    ensures ValidPath(n, p[..k])
  {
    var tail := p[k..];
    assert p == p[..k] + tail;
    PrefixValidSplit(n, p[..k], tail);
  }

  lemma {:induction false} PrefixValidSplit(n: Node, p: seq<nat>, q: seq<nat>)
    requires ValidPath(n, p + q)
    ensures ValidPath(n, p)
    decreases |p|
  {
    if |p| > 0 {
      assert (p + q)[0] == p[0] && (p + q)[1..] == p[1..] + q;
      PrefixValidSplit(n.children[p[0]], p[1..], q);
    }
  }

  /** One more index below a valid path names a child of the node it leads to. */
  lemma ChildPath(n: Node, p: seq<nat>, i: nat)
    requires ValidPath(n, p) && i < |At(n, p).children|
    ensures ValidPath(n, p + [i]) && At(n, p + [i]) == At(n, p).children[i]
  {
    AtAppend(n, p, [i]);
  }

  /** The ancestor of the node at `p` that sits `k` levels below the root (the node itself when `k == |p|`). */
  function Ancestor(n: Node, p: seq<nat>, k: nat): Node
    requires ValidPath(n, p) && k <= |p|
  {
    PrefixValid(n, p, k);
    At(n, p[..k])
  }
}
