/** The heading tree (build_tree): every heading becomes a child of the nearest earlier
    heading with a lower level, so a heading's subtree is exactly its section. */
module Tree {
  import opened Wrappers
  import opened Headings
  import opened Sections
  import opened Seqs

  /** A heading with the nodes of its children, in document order. */
  datatype Node = Node(heading: Heading, children: seq<Node>)

  // ---------------------------------------------------------------------
  // The reference tree

  /** The forest of `hs`: the first heading owns the headings of its section as its
      subtree, and the headings after the section form the following trees. */
  function Forest(hs: seq<Heading>): seq<Node>
    decreases |hs|
  {
    if hs == [] then []
    else
      var e := SectionEnd(hs, 0);
      [Node(hs[0], Forest(hs[1..e]))] + Forest(hs[e..])
  }

  function ForestPre(f: seq<Node>): seq<Heading>
    decreases f
  {
    if f == [] then [] else NodePre(f[0]) + ForestPre(f[1..])
  }

  /** The headings of a subtree in preorder. */
  function NodePre(n: Node): seq<Heading>
    decreases n
  {
    [n.heading] + ForestPre(n.children)
  }

  lemma ForestPreCons(n: Node, f: seq<Node>)
    ensures ForestPre([n] + f) == NodePre(n) + ForestPre(f)
  {
    assert ([n] + f)[0] == n && ([n] + f)[1..] == f;
  }

  /** The tree loses no heading and reorders none: its preorder is the input. */
  lemma {:induction false} ForestPreorder(hs: seq<Heading>)
    ensures ForestPre(Forest(hs)) == hs
    decreases |hs|
  {
    if hs != [] {
      var e := SectionEnd(hs, 0);
      ForestPreorder(hs[1..e]);
      ForestPreorder(hs[e..]);
      ForestPreCons(Node(hs[0], Forest(hs[1..e])), Forest(hs[e..]));
      ThreeParts(hs, e);
    }
  }

  /** Every child is deeper than its parent, all the way down. */
  ghost predicate NodeOrdered(n: Node)
    decreases n
  {
    forall i | 0 <= i < |n.children| ::
      n.children[i].heading.level > n.heading.level && NodeOrdered(n.children[i])
  }

  ghost predicate ForestOrdered(f: seq<Node>) {
    forall i | 0 <= i < |f| :: NodeOrdered(f[i])
  }

  /** The roots of the forest of `hs` are headings of `hs`. */
  lemma {:induction false} RootsFrom(hs: seq<Heading>)
    ensures forall i | 0 <= i < |Forest(hs)| :: Forest(hs)[i].heading in hs
    decreases |hs|
  {
    if hs != [] {
      var e := SectionEnd(hs, 0);
      RootsFrom(hs[e..]);
      var f := Forest(hs);
      forall i | 0 <= i < |f|
        ensures f[i].heading in hs
      {
        if i > 0 {
          assert f[i] == Forest(hs[e..])[i - 1];
          assert f[i].heading in hs[e..];
        }
      }
    }
  }

  /** A child is always deeper than its parent. */
  lemma {:induction false} ForestIsOrdered(hs: seq<Heading>)
    ensures ForestOrdered(Forest(hs))
    decreases |hs|
  {
    if hs != [] {
      var e := SectionEnd(hs, 0);
      var kids := Forest(hs[1..e]);
      ForestIsOrdered(hs[1..e]);
      ForestIsOrdered(hs[e..]);
      RootsFrom(hs[1..e]);
      forall i | 0 <= i < |kids|
        ensures kids[i].heading.level > hs[0].level
      {
        var k :| 0 <= k < |hs[1..e]| && hs[1..e][k] == kids[i].heading;
        assert hs[1..e][k] == hs[k + 1];
      }
      var f := Forest(hs);
      assert NodeOrdered(f[0]);
      forall i | 0 < i < |f|
        ensures NodeOrdered(f[i])
      {
        assert f[i] == Forest(hs[e..])[i - 1];
      }
    }
  }

  // ---------------------------------------------------------------------
  // Growing the tree one heading at a time

  /** The headings from the last root down its last children: the nodes still open. */
  function RightPath(f: seq<Node>): seq<Heading>
    decreases f
  {
    if f == [] then [] else [f[|f| - 1].heading] + RightPath(f[|f| - 1].children)
  }

  /** `n` appended as the last child of the node at depth `d - 1` of the right path; as
      a new root when `d` is 0. */
  function AttachAt(f: seq<Node>, d: nat, n: Node): seq<Node>
    requires d <= |RightPath(f)|
    decreases d
  {
    if d == 0 then f + [n]
    else
      var last := f[|f| - 1];
      f[..|f| - 1] + [Node(last.heading, AttachAt(last.children, d - 1, n))]
  }

  /** How many leading headings of `path` are shallower than `level`. */
  function Depth(path: seq<Heading>, level: nat): (r: nat)
    ensures r <= |path|
  {
    if path == [] || path[0].level >= level then 0 else 1 + Depth(path[1..], level)
  }

  lemma {:induction false} DepthIs(path: seq<Heading>, level: nat, k: nat)
    requires k <= |path|
    requires forall j | 0 <= j < k :: path[j].level < level
    requires k == |path| || path[k].level >= level
    ensures Depth(path, level) == k
  {
    if k > 0 {
      DepthIs(path[1..], level, k - 1);
    }
  }

  /** Strictly increasing levels. */
  ghost predicate Ascending(path: seq<Heading>) {
    forall a, b | 0 <= a < b < |path| :: path[a].level < path[b].level
  }

  lemma {:induction false} RightPathAttach(f: seq<Node>, d: nat, h: Heading)
    requires d <= |RightPath(f)|
    ensures RightPath(AttachAt(f, d, Node(h, []))) == RightPath(f)[..d] + [h]
    decreases d
  {
    var g := AttachAt(f, d, Node(h, []));
    if d == 0 {
      assert g[|g| - 1] == Node(h, []);
    } else {
      var last := f[|f| - 1];
      RightPathAttach(last.children, d - 1, h);
      assert g[|g| - 1] == Node(last.heading, AttachAt(last.children, d - 1, Node(h, [])));
      assert RightPath(f)[..d] == [last.heading] + RightPath(last.children)[..d - 1];
    }
  }

  lemma RightPathCons(a: Node, r: seq<Node>)
    requires r != []
    ensures RightPath([a] + r) == RightPath(r)
  {
    assert ([a] + r)[|[a] + r| - 1] == r[|r| - 1];
  }

  lemma AttachAtCons(a: Node, r: seq<Node>, d: nat, n: Node)
    requires r != [] && d <= |RightPath(r)|
    ensures RightPath([a] + r) == RightPath(r)
    ensures AttachAt([a] + r, d, n) == [a] + AttachAt(r, d, n)
  {
    RightPathCons(a, r);
    var f := [a] + r;
    if d > 0 {
      assert f[|f| - 1] == r[|r| - 1];
      assert f[..|f| - 1] == [a] + r[..|r| - 1];
    }
  }

  /** SectionEnd is determined by its contract. */
  lemma SectionEndIs(hs: seq<Heading>, i: nat, r: nat)
    requires i < r <= |hs|
    requires forall k | i < k < r :: hs[k].level > hs[i].level
    requires r < |hs| ==> hs[r].level <= hs[i].level
    ensures SectionEnd(hs, i) == r
  {
    var s := SectionEnd(hs, i);
  }

  /** `t` extends `hs` by one heading; the section of the first heading ends inside
      `hs`, so the first tree is unchanged and the new heading joins the rest. */
  lemma SnocAfterSection(hs: seq<Heading>, t: seq<Heading>, e: nat, rest: seq<Heading>)
    requires hs != [] && e == SectionEnd(hs, 0) < |hs|
    requires |t| == |hs| + 1 && t[..|hs|] == hs && rest == t[e..]
    ensures Forest(t) == [Node(hs[0], Forest(hs[1..e]))] + Forest(rest)
  {
    assert forall k | 0 <= k < |hs| :: t[k] == hs[k];
    SectionEndIs(t, 0, e);
    assert t[1..e] == hs[1..e];
  }

  lemma ForestUnfold(hs: seq<Heading>, e: nat)
    requires hs != [] && e == SectionEnd(hs, 0)
    ensures Forest(hs) == [Node(hs[0], Forest(hs[1..e]))] + Forest(hs[e..])
  {
  }

  /** The forest of a single heading section with nothing after it. */
  lemma WholeForest(hs: seq<Heading>)
    requires hs != [] && SectionEnd(hs, 0) == |hs|
    ensures Forest(hs) == [Node(hs[0], Forest(hs[1..]))]
  {
    ForestUnfold(hs, |hs|);
    assert hs[1..|hs|] == hs[1..];
    assert hs[|hs|..] == [];
    AppendEmpty([Node(hs[0], Forest(hs[1..]))], Forest(hs[|hs|..]));
  }

  /** `t` extends a single tree `hs` by a heading no deeper than its root: a new root. */
  lemma SnocNewRoot(hs: seq<Heading>, t: seq<Heading>)
    requires hs != [] && SectionEnd(hs, 0) == |hs|
    requires |t| == |hs| + 1 && t[..|hs|] == hs && t[|hs|].level <= hs[0].level
    ensures Forest(t) == Forest(hs) + [Node(t[|hs|], [])]
  {
    assert forall k | 0 <= k < |hs| :: t[k] == hs[k];
    SectionEndIs(t, 0, |hs|);
    ForestUnfold(t, |hs|);
    assert t[1..|hs|] == hs[1..];
    SingleForest(t[|hs|..]);
    WholeForest(hs);
  }

  lemma SingleForest(t: seq<Heading>)
    requires |t| == 1
    ensures Forest(t) == [Node(t[0], [])]
  {
    SectionEndIs(t, 0, 1);
    ForestUnfold(t, 1);
    assert t[1..1] == [] && t[1..] == [];
  }

  /** `t` extends a single tree `hs` by a heading deeper than its root: the heading
      goes inside that tree. */
  lemma SnocInside(hs: seq<Heading>, t: seq<Heading>, inner: seq<Heading>)
    requires hs != [] && SectionEnd(hs, 0) == |hs|
    requires |t| == |hs| + 1 && t[..|hs|] == hs && t[|hs|].level > hs[0].level && inner == t[1..]
    ensures Forest(t) == [Node(hs[0], Forest(inner))]
    ensures Forest(hs) == [Node(hs[0], Forest(hs[1..]))]
  {
    assert forall k | 0 <= k < |hs| :: t[k] == hs[k];
    SectionEndIs(t, 0, |t|);
    WholeForest(t);
    WholeForest(hs);
  }

  /** Appending a heading attaches it below the deepest open heading that is shallower
      than it, or as a new root when there is none. */
  lemma {:induction false} ForestSnoc(hs: seq<Heading>, h: Heading)
    ensures Forest(hs + [h]) == AttachAt(Forest(hs), Depth(RightPath(Forest(hs)), h.level), Node(h, []))
    decreases |hs|
  {
    var t := hs + [h];
    assert t[..|hs|] == hs && t[|hs|] == h;
    if hs == [] {
      SingleForest(t);
    } else {
      var e := SectionEnd(hs, 0);
      if e < |hs| {
        ForestSnoc(hs[e..], h);
        SnocLater(hs, h, e);
      } else if h.level <= hs[0].level {
        SnocNewRoot(hs, t);
      } else {
        ForestSnoc(hs[1..], h);
        SnocDeeper(hs, h);
      }
    }
  }

  /** The step of ForestSnoc when the first section ends inside `hs`. */
  lemma SnocLater(hs: seq<Heading>, h: Heading, e: nat)
    requires hs != [] && e == SectionEnd(hs, 0) < |hs|
    requires Forest(hs[e..] + [h])
      == AttachAt(Forest(hs[e..]), Depth(RightPath(Forest(hs[e..])), h.level), Node(h, []))
    ensures Forest(hs + [h]) == AttachAt(Forest(hs), Depth(RightPath(Forest(hs)), h.level), Node(h, []))
  {
    var t := hs + [h];
    assert t[..|hs|] == hs;
    assert t[e..] == hs[e..] + [h];
    SnocAfterSection(hs, t, e, hs[e..] + [h]);
    ForestUnfold(hs, e);
    var a := Node(hs[0], Forest(hs[1..e]));
    var r := Forest(hs[e..]);
    assert r != [];
    AttachAtCons(a, r, Depth(RightPath(r), h.level), Node(h, []));
  }

  /** The step of ForestSnoc when `h` falls inside the single section of `hs`. */
  lemma SnocDeeper(hs: seq<Heading>, h: Heading)
    requires hs != [] && SectionEnd(hs, 0) == |hs| && h.level > hs[0].level
    requires Forest(hs[1..] + [h])
      == AttachAt(Forest(hs[1..]), Depth(RightPath(Forest(hs[1..])), h.level), Node(h, []))
    ensures Forest(hs + [h]) == AttachAt(Forest(hs), Depth(RightPath(Forest(hs)), h.level), Node(h, []))
  {
    Snoc(hs, h);
    SnocTail(hs, h);
    SnocInside(hs, hs + [h], hs[1..] + [h]);
    OneTreeAttach(hs[0], Forest(hs[1..]), h.level, Node(h, []));
  }

  /** Attaching below the root of a single tree whose root is shallower. */
  lemma OneTreeAttach(x: Heading, c: seq<Node>, level: nat, n: Node)
    requires x.level < level
    ensures Depth(RightPath([Node(x, c)]), level) == 1 + Depth(RightPath(c), level)
    ensures AttachAt([Node(x, c)], 1 + Depth(RightPath(c), level), n)
      == [Node(x, AttachAt(c, Depth(RightPath(c), level), n))]
  {
    var f := [Node(x, c)];
    var p := RightPath(c);
    assert f[|f| - 1] == Node(x, c);
    assert RightPath(f) == [x] + p;
    assert ([x] + p)[1..] == p;
    var d := Depth(p, level);
    assert f[..0] == [];
    assert AttachAt(f, 1 + d, n) == f[..0] + [Node(x, AttachAt(c, d, n))];
    AppendToEmpty(f[..0], [Node(x, AttachAt(c, d, n))]);
  }

  // ---------------------------------------------------------------------
  // Who the parent is

  /** The position of the last heading of `hs` shallower than `level`, if any: the
      parent the rule of build_tree names for a heading of that level appended to `hs`. */
  function NearestBelow(hs: seq<Heading>, level: nat): (r: Option<nat>)
    ensures r.Some? ==> r.value < |hs| && hs[r.value].level < level
    ensures r.Some? ==> forall m | r.value < m < |hs| :: hs[m].level >= level
    ensures r.None? <==> forall k | 0 <= k < |hs| :: hs[k].level >= level
    decreases |hs|
  {
    if hs == [] then None
    else if hs[|hs| - 1].level < level then Some(|hs| - 1)
    else NearestBelow(hs[..|hs| - 1], level)
  }

  lemma NearestBelowIs(hs: seq<Heading>, level: nat, k: nat)
    requires k < |hs| && hs[k].level < level
    requires forall m | k < m < |hs| :: hs[m].level >= level
    ensures NearestBelow(hs, level) == Some(k)
  {
    var r := NearestBelow(hs, level);
  }

  lemma ForestNonEmpty(hs: seq<Heading>)
    requires hs != []
    ensures Forest(hs) != []
  {
    ForestUnfold(hs, SectionEnd(hs, 0));
  }

  /** The heading a new heading is attached to is its nearest earlier shallower
      heading; it becomes a root exactly when every earlier heading is at least as deep. */
  lemma {:induction false} AttachPoint(hs: seq<Heading>, level: nat)
    ensures NearestBelow(hs, level).None? ==> Depth(RightPath(Forest(hs)), level) == 0
    ensures NearestBelow(hs, level).Some? ==>
      0 < Depth(RightPath(Forest(hs)), level)
      && RightPath(Forest(hs))[Depth(RightPath(Forest(hs)), level) - 1] == hs[NearestBelow(hs, level).value]
    decreases |hs|
  {
    if hs != [] {
      var e := SectionEnd(hs, 0);
      if e < |hs| {
        AttachPoint(hs[e..], level);
        AttachPointLater(hs, level, e);
      } else {
        AttachPoint(hs[1..], level);
        AttachPointInside(hs, level);
      }
    }
  }

  /** The step of AttachPoint when the first section ends inside `hs`. */
  lemma AttachPointLater(hs: seq<Heading>, level: nat, e: nat)
    requires hs != [] && e == SectionEnd(hs, 0) < |hs|
    requires NearestBelow(hs[e..], level).None? ==> Depth(RightPath(Forest(hs[e..])), level) == 0
    requires NearestBelow(hs[e..], level).Some? ==>
      0 < Depth(RightPath(Forest(hs[e..])), level)
      && RightPath(Forest(hs[e..]))[Depth(RightPath(Forest(hs[e..])), level) - 1]
         == hs[e..][NearestBelow(hs[e..], level).value]
    ensures NearestBelow(hs, level).None? ==> Depth(RightPath(Forest(hs)), level) == 0
    ensures NearestBelow(hs, level).Some? ==>
      0 < Depth(RightPath(Forest(hs)), level)
      && RightPath(Forest(hs))[Depth(RightPath(Forest(hs)), level) - 1] == hs[NearestBelow(hs, level).value]
  {
    ForestUnfold(hs, e);
    ForestNonEmpty(hs[e..]);
    RightPathCons(Node(hs[0], Forest(hs[1..e])), Forest(hs[e..]));
    NearestBelowLater(hs, level, e);
    var r := NearestBelow(hs[e..], level);
    if r.Some? {
      assert hs[e..][r.value] == hs[e + r.value];
    }
  }

  /** Past the first section, the nearest shallower heading lies after it, if anywhere. */
  lemma NearestBelowLater(hs: seq<Heading>, level: nat, e: nat)
    requires hs != [] && e == SectionEnd(hs, 0) < |hs|
    ensures NearestBelow(hs, level)
      == match NearestBelow(hs[e..], level) case None => None case Some(j) => Some(e + j)
  {
    var g := hs[e..];
    match NearestBelow(g, level)
    case None =>
      forall k | 0 <= k < |hs|
        ensures hs[k].level >= level
      {
        if k >= e {
          assert hs[k] == g[k - e];
        } else {
          assert g[0] == hs[e];
        }
      }
    case Some(j) =>
      assert g[j] == hs[e + j];
      forall m | e + j < m < |hs|
        ensures hs[m].level >= level
      {
        assert hs[m] == g[m - e];
      }
      NearestBelowIs(hs, level, e + j);
  }

  /** Inside a single section, the root is the nearest shallower heading unless a
      deeper one comes after it. */
  lemma NearestBelowInside(hs: seq<Heading>, level: nat)
    requires hs != [] && SectionEnd(hs, 0) == |hs|
    ensures NearestBelow(hs, level)
      == if hs[0].level >= level then None
         else match NearestBelow(hs[1..], level) case None => Some(0) case Some(j) => Some(j + 1)
  {
    var c := hs[1..];
    if hs[0].level >= level {
      forall k | 0 < k < |hs|
        ensures hs[k].level >= level
      {
      }
    } else {
      match NearestBelow(c, level)
      case None =>
        forall m | 0 < m < |hs|
          ensures hs[m].level >= level
        {
          assert hs[m] == c[m - 1];
        }
        NearestBelowIs(hs, level, 0);
      case Some(j) =>
        assert c[j] == hs[j + 1];
        forall m | j + 1 < m < |hs|
          ensures hs[m].level >= level
        {
          assert hs[m] == c[m - 1];
        }
        NearestBelowIs(hs, level, j + 1);
    }
  }

  /** The step of AttachPoint when `hs` is one section. */
  lemma AttachPointInside(hs: seq<Heading>, level: nat)
    requires hs != [] && SectionEnd(hs, 0) == |hs|
    requires NearestBelow(hs[1..], level).None? ==> Depth(RightPath(Forest(hs[1..])), level) == 0
    requires NearestBelow(hs[1..], level).Some? ==>
      0 < Depth(RightPath(Forest(hs[1..])), level)
      && RightPath(Forest(hs[1..]))[Depth(RightPath(Forest(hs[1..])), level) - 1]
         == hs[1..][NearestBelow(hs[1..], level).value]
    ensures NearestBelow(hs, level).None? ==> Depth(RightPath(Forest(hs)), level) == 0
    ensures NearestBelow(hs, level).Some? ==>
      0 < Depth(RightPath(Forest(hs)), level)
      && RightPath(Forest(hs))[Depth(RightPath(Forest(hs)), level) - 1] == hs[NearestBelow(hs, level).value]
  {
    var c := hs[1..];
    WholeForest(hs);
    NearestBelowInside(hs, level);
    var f := [Node(hs[0], Forest(c))];
    var p := RightPath(Forest(c));
    assert f[|f| - 1] == Node(hs[0], Forest(c));
    assert RightPath(f) == [hs[0]] + p;
    if hs[0].level < level {
      OneTreeAttach(hs[0], Forest(c), level, Node(hs[0], []));
      var d := Depth(p, level);
      var r := NearestBelow(c, level);
      if r.Some? {
        assert c[r.value] == hs[r.value + 1];
        assert ([hs[0]] + p)[1 + d - 1] == p[d - 1];
      }
    }
  }

  // ---------------------------------------------------------------------
  // build_tree

  /** The pop loop of build_tree: drop open headings from the top while they are not
      shallower than `level`. On an ascending stack that keeps exactly the shallower
      prefix. */
  method Unwind(stack: seq<Heading>, level: nat) returns (kept: seq<Heading>)
    requires Ascending(stack)
    ensures kept == stack[..Depth(stack, level)]
  {
    kept := stack;
    while kept != [] && kept[|kept| - 1].level >= level
      invariant |kept| <= |stack| && kept == stack[..|kept|]
      invariant forall j | |kept| <= j < |stack| :: stack[j].level >= level
      decreases |kept|
    {
      kept := kept[..|kept| - 1];
    }
    var d := |kept|;
    assert forall j | 0 <= j < d :: stack[j].level < level by {
      if d > 0 {
        assert stack[d - 1].level < level;
      }
    }
    DepthIs(stack, level, d);
  }

  /** The open path after a push stays strictly ascending. */
  lemma PushAscending(stack: seq<Heading>, d: nat, h: Heading)
    requires Ascending(stack) && d == Depth(stack, h.level)
    ensures Ascending(stack[..d] + [h])
  {
    DepthBelow(stack, h.level);
  }

  lemma {:induction false} DepthBelow(path: seq<Heading>, level: nat)
    ensures forall j | 0 <= j < Depth(path, level) :: path[j].level < level
  {
    if path != [] && path[0].level < level {
      DepthBelow(path[1..], level);
      forall j | 0 < j < Depth(path, level)
        ensures path[j].level < level
      {
        assert path[j] == path[1..][j - 1];
      }
    }
  }

  /** One turn of the loop of build_tree: pop the open headings that are not shallower
      than `h`; `h` becomes the last child of the one left on top, or a new root; then
      `h` is pushed. */
  method Place(tree: seq<Node>, stack: seq<Heading>, h: Heading) returns (tree': seq<Node>, stack': seq<Heading>)
    requires stack == RightPath(tree) && Ascending(stack)
    ensures tree' == AttachAt(tree, Depth(stack, h.level), Node(h, []))
    ensures stack' == RightPath(tree') && Ascending(stack')
  {
    var node := Node(h, []);
    var kept := Unwind(stack, h.level);
    var d := |kept|;
    if kept != [] {
      tree' := AttachAt(tree, d, node);
    } else {
      tree' := tree + [node];
    }
    RightPathAttach(tree, d, h);
    PushAscending(stack, d, h);
    stack' := kept + [h];
  }

  /** build_tree: the forest whose subtrees are the sections of the headings. */
  method BuildTree(hs: seq<Heading>) returns (tree: seq<Node>)
    ensures tree == Forest(hs)
    ensures ForestPre(tree) == hs && ForestOrdered(tree)
  {
    tree := [];
    var stack: seq<Heading> := [];
    for i := 0 to |hs|
      invariant tree == Forest(hs[..i])
      invariant stack == RightPath(tree) && Ascending(stack)
    {
      ForestSnoc(hs[..i], hs[i]);
      PrefixSnoc(hs, i);
      tree, stack := Place(tree, stack, hs[i]);
    }
    assert hs[..|hs|] == hs;
    ForestPreorder(hs);
    ForestIsOrdered(hs);
  }
}
