/** The part of a converted slide's HTML tree that the parsers query. The Markdown-to-HTML
    conversion and the HTML parser are foreign code, so a slide's tree reaches the model already
    flattened: the elements the queries select, in document order, each with the text that
    `get_text(strip=True)` gives for it, or with the `src` and `alt` attributes of an image,
    either of which may be missing. Elements of other tags are left out of the sequence, since no
    query selects them. */
module Soup {
  import opened Wrappers

  datatype Node =
    | H1(text: string)
    | H2(text: string)
    | H3(text: string)
    | Strong(text: string)
    | Li(text: string)
    | P(text: string)
    | Img(src: Option<string>, alt: Option<string>)

  /** The Markdown-to-tree conversion, an abstract input of the parsers. */
  type Renderer = string -> seq<Node>

  /** A tag in the set that the given `find([...])` query asks for. */
  predicate InTagSet(n: Node, withH3: bool)
  {
    n.H1? || n.H2? || n.Strong? || (withH3 && n.H3?)
  }

  /** `soup.find([...])`: the position of the first element with one of the tags, if any. */
  function Find(nodes: seq<Node>, withH3: bool): (r: Option<nat>)
    ensures r.Some? ==> r.value < |nodes| && InTagSet(nodes[r.value], withH3)
    ensures r.Some? ==> forall j :: 0 <= j < r.value ==> !InTagSet(nodes[j], withH3)
    ensures r.None? ==> forall j :: 0 <= j < |nodes| ==> !InTagSet(nodes[j], withH3)
    decreases |nodes|
  {
    if nodes == [] then None
    else if InTagSet(nodes[0], withH3) then Some(0)
    else match Find(nodes[1..], withH3)
      case Some(k) => Some(k + 1)
      case None => None
  }

  /** Conversely, the first element with one of the tags is the one found. */
  lemma {:induction false} FindFirst(nodes: seq<Node>, withH3: bool, k: nat)
    requires k < |nodes| && InTagSet(nodes[k], withH3)
    requires forall j :: 0 <= j < k ==> !InTagSet(nodes[j], withH3)
    ensures Find(nodes, withH3) == Some(k)
    decreases k
  {
    if k > 0 {
      FindFirst(nodes[1..], withH3, k - 1);
    }
  }

  /** Conversely, nothing is found when no element has one of the tags. */
  lemma FindNone(nodes: seq<Node>, withH3: bool)
    requires forall j :: 0 <= j < |nodes| ==> !InTagSet(nodes[j], withH3)
    ensures Find(nodes, withH3) == None
  {
  }

  /** `decompose()` of the element at position `k`: it is gone from every later query. */
  function Remove(nodes: seq<Node>, k: nat): (r: seq<Node>)
    requires k < |nodes|
    ensures |r| == |nodes| - 1
    ensures forall j :: 0 <= j < k ==> r[j] == nodes[j]
    ensures forall j :: k <= j < |r| ==> r[j] == nodes[j + 1]
  {
    nodes[..k] + nodes[k + 1..]
  }

  /** `find_all(tag)` followed by a step per element: the concatenation, in document order, of
      what `f` makes of each node (nothing for the nodes the query does not select). */
  function Collect<T>(nodes: seq<Node>, f: Node -> seq<T>): seq<T>
    decreases |nodes|
  {
    if nodes == [] then [] else Collect(nodes[..|nodes| - 1], f) + f(nodes[|nodes| - 1])
  }

  /** One more step of a loop over `nodes`. */
  lemma CollectSnoc<T>(nodes: seq<Node>, i: nat, f: Node -> seq<T>)
    requires i < |nodes|
    ensures Collect(nodes[..i + 1], f) == Collect(nodes[..i], f) + f(nodes[i])
  {
    assert nodes[..i + 1][..i] == nodes[..i];
  }

  lemma CollectPush<T>(s: seq<Node>, n: Node, f: Node -> seq<T>)
    ensures Collect(s + [n], f) == Collect(s, f) + f(n)
  {
    assert (s + [n])[..|s|] == s;
  }

  /** Each node contributes independently of its neighbours. */
  lemma {:induction false} CollectAppend<T>(a: seq<Node>, b: seq<Node>, f: Node -> seq<T>)
    ensures Collect(a + b, f) == Collect(a, f) + Collect(b, f)
    decreases |b|
  {
    if b == [] {
      assert a + b == a;
    } else {
      var k := |b| - 1;
      assert a + b == (a + b[..k]) + [b[k]];
      assert b == b[..k] + [b[k]];
      CollectPush(a + b[..k], b[k], f);
      CollectPush(b[..k], b[k], f);
      CollectAppend(a, b[..k], f);
      AppendAssoc(Collect(a, f), Collect(b[..k], f), f(b[k]));
    }
  }

  /** What is collected is exactly what some node contributes. */
  lemma {:induction false} CollectMember<T>(nodes: seq<Node>, f: Node -> seq<T>, x: T)
    ensures x in Collect(nodes, f) <==> exists j :: 0 <= j < |nodes| && x in f(nodes[j])
    decreases |nodes|
  {
    if nodes != [] {
      var n := |nodes| - 1;
      CollectMember(nodes[..n], f, x);
      if x in Collect(nodes, f) && x !in f(nodes[n]) {
        var j :| 0 <= j < n && x in f(nodes[..n][j]);
        assert nodes[..n][j] == nodes[j];
      }
      if j :| 0 <= j < |nodes| && x in f(nodes[j]) {
        if j < n {
          assert nodes[..n][j] == nodes[j];
        }
      }
    }
  }

  /** One step per node, so a step that contributes at most one item each time gives at most one
      item per node. */
  lemma {:induction false} CollectLength<T>(nodes: seq<Node>, f: Node -> seq<T>)
    requires forall n :: |f(n)| <= 1
    ensures |Collect(nodes, f)| <= |nodes|
    decreases |nodes|
  {
    if nodes != [] {
      CollectLength(nodes[..|nodes| - 1], f);
    }
  }
}
