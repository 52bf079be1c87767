/** The doubly linked list of the standard library, as far as Miniball uses it: nodes
    keep their identity while they are spliced, and an iterator is a node or the end. */
module Lists {

  datatype Node = Node(id: nat, pit: nat)

  datatype Iterator = At(node: Node) | End

  ghost predicate Distinct(l: seq<Node>) {
    forall i, j :: 0 <= i < j < |l| ==> l[i] != l[j]
  }

  /** The iterator to position k. */
  function ItAt(l: seq<Node>, k: nat): Iterator
    requires k <= |l|
  {
    if k < |l| then At(l[k]) else End
  }

  function IndexOf(l: seq<Node>, x: Node): (k: nat)
    ensures k <= |l| && (k < |l| ==> l[k] == x) && x !in l[..k]
  {
    if l == [] || l[0] == x then 0 else 1 + IndexOf(l[1..], x)
  }

  /** std::distance(l.begin(), it) */
  function Distance(l: seq<Node>, it: Iterator): (k: nat)
    ensures k <= |l|
  {
    match it
    case At(x) => IndexOf(l, x)
    case End => |l|
  }

  function Next(l: seq<Node>, it: Iterator): Iterator
    requires Distance(l, it) < |l|
  {
    ItAt(l, Distance(l, it) + 1)
  }

  /** l.splice(l.begin(), l, j) for the node at position k */
  function MoveToFront(l: seq<Node>, k: nat): (r: seq<Node>)
    requires k < |l|
    ensures |r| == |l| && r[0] == l[k]
    ensures forall i :: 0 < i <= k ==> r[i] == l[i-1]
    ensures forall i :: k < i < |l| ==> r[i] == l[i]
  {
    [l[k]] + l[..k] + l[k+1..]
  }

  function Pits(l: seq<Node>): (r: seq<nat>)
    ensures |r| == |l| && forall i :: 0 <= i < |l| ==> r[i] == l[i].pit
  {
    seq(|l|, i requires 0 <= i < |l| => l[i].pit)
  }

  /** Iterators and positions correspond. */
  lemma DistanceItAt(l: seq<Node>, k: nat)
    requires Distinct(l) && k <= |l|
    ensures Distance(l, ItAt(l, k)) == k
  {
    if k < |l| {
      assert l[k] in l[..k+1];
    }
  }

  lemma ItAtInjective(l: seq<Node>, i: nat, j: nat)
    requires Distinct(l) && i <= |l| && j <= |l|
    ensures ItAt(l, i) == ItAt(l, j) <==> i == j
  {
    DistanceItAt(l, i);
    DistanceItAt(l, j);
  }

  /** Splicing keeps every node, its identity and the part of the list behind it. */
  lemma MoveToFrontPermutes(l: seq<Node>, k: nat)
    requires Distinct(l) && k < |l|
    ensures Distinct(MoveToFront(l, k))
    ensures multiset(MoveToFront(l, k)[..k+1]) == multiset(l[..k+1])
    ensures MoveToFront(l, k)[k+1..] == l[k+1..]
  {
    var r := MoveToFront(l, k);
    assert r[..k+1] == [l[k]] + l[..k];
    assert l[..k+1] == l[..k] + [l[k]];
    forall i, j | 0 <= i < j < |r| ensures r[i] != r[j] {
      var p, q := if i == 0 then k else if i <= k then i - 1 else i, if j <= k then j - 1 else j;
      assert r[i] == l[p] && r[j] == l[q] && p != q;
      assert l[p] != l[q];
    }
  }

  lemma SamePrefixNodes(l: seq<Node>, m: seq<Node>)
    requires multiset(l) == multiset(m)
    ensures |l| == |m| && forall i :: 0 <= i < |l| ==> l[i] in m
  {
    assert |multiset(l)| == |l| && |multiset(m)| == |m|;
    forall i | 0 <= i < |l| ensures l[i] in m {
      assert l[i] in multiset(l);
      assert l[i] in multiset(m);
    }
  }

  /** m is l with the nodes before position k permuted. */
  ghost predicate Permuted(l: seq<Node>, m: seq<Node>, k: nat) {
    && k <= |l| == |m|
    && m[k..] == l[k..]
    && multiset(m[..k]) == multiset(l[..k])
  }

  lemma PermutedLater(l: seq<Node>, m: seq<Node>, k: nat)
    requires Permuted(l, m, k) && k < |l|
    ensures m[k] == l[k] && Permuted(l, m, k + 1)
  {
    assert m[k] == m[k..][0] == l[k..][0] == l[k];
    assert m[k+1..] == m[k..][1..] == l[k..][1..] == l[k+1..];
    assert m[..k+1] == m[..k] + [m[k]] && l[..k+1] == l[..k] + [l[k]];
  }

  lemma PermutedToFront(l: seq<Node>, m: seq<Node>, k: nat)
    requires Distinct(m) && Permuted(l, m, k) && k < |m|
    ensures k < |l| && m[k] == l[k] && Permuted(l, MoveToFront(m, k), k + 1)
  {
    MoveToFrontPermutes(m, k);
    PermutedLater(l, m, k);
  }

  lemma PermutedAgain(l: seq<Node>, m: seq<Node>, r: seq<Node>, k: nat)
    requires Permuted(l, m, k) && Permuted(m, r, k)
    ensures Permuted(l, r, k)
  {}
}
