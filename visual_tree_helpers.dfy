/** The visual-tree search helpers of Libraries.VisualTreeHelpers.

    A visual tree is a finite tree of `Node`s. Searches that go DOWN from a
    node (children, descendants) need only the node's own subtree, so they
    take the node as a value and return node values. Searches that go UP
    (parents, the root, siblings) need the node's position in the whole tree,
    so they take the root and a `Path` of child indices, and return paths. */
module VisualTreeHelpers {
  import opened Wrappers

  /** The run-time class of a visual ("Border", "Image", "TextBox", ...).
      A type argument T of a helper becomes `isT: Kind -> bool`, true of the
      classes that are T or derive from it. */
  type Kind = string

  /** A visual with its `Name` (empty when unnamed) and its children in
      child-index order. */
  datatype Node = Node(kind: Kind, name: string, children: seq<Node>)

  /** A position in a tree: the child indices from the root down. */
  type Path = seq<nat>

  // ---------------------------------------------------------------------
  // Pre-order and filtering: the reference definitions for the searches
  // ---------------------------------------------------------------------

  /** All nodes of the trees `cs`, in pre-order: each tree's root before its
      subtrees, the trees in order. */
  function Forest(cs: seq<Node>): seq<Node>
  {
    if cs == [] then [] else [cs[0]] + Forest(cs[0].children) + Forest(cs[1..])
  }

  /** The proper descendants of `n` in pre-order. */
  function Descendants(n: Node): seq<Node>
  {
    Forest(n.children)
  }

  /** The `child is T && predicate(child)` test of the searches. */
  predicate Matches(n: Node, isT: Kind -> bool, pred: Node -> bool)
  {
    isT(n.kind) && pred(n)
  }

  /** The condition `x => true` of the one-argument overloads. */
  function Always(n: Node): bool
  {
    true
  }

  /** The condition `x => x.Name == name` of FindVisualChildName. */
  function HasName(name: string): Node -> bool
  {
    (n: Node) => n.name == name
  }

  /** The elements of `s` that match, in their order in `s`. */
  function Matching(s: seq<Node>, isT: Kind -> bool, pred: Node -> bool): (r: seq<Node>)
    ensures |r| <= |s|
    ensures forall x :: x in r ==> x in s && Matches(x, isT, pred)
    ensures forall x :: x in s && Matches(x, isT, pred) ==> x in r
  {
    if s == [] then []
    else (if Matches(s[0], isT, pred) then [s[0]] else []) + Matching(s[1..], isT, pred)
  }

  /** The first element of `s`, or null. */
  function First(s: seq<Node>): (r: Option<Node>)
    ensures r.None? <==> s == []
    ensures r.Some? ==> r.value == s[0]
  {
    if s == [] then None else Some(s[0])
  }

  lemma {:induction false} MatchingAppend(a: seq<Node>, b: seq<Node>, isT: Kind -> bool, pred: Node -> bool)
    ensures Matching(a + b, isT, pred) == Matching(a, isT, pred) + Matching(b, isT, pred)
  {
    if a != [] {
      assert (a + b)[0] == a[0];
      assert (a + b)[1..] == a[1..] + b;
      MatchingAppend(a[1..], b, isT, pred);
      var head := if Matches(a[0], isT, pred) then [a[0]] else [];
      calc {
        Matching(a + b, isT, pred);
        head + Matching(a[1..] + b, isT, pred);
        head + (Matching(a[1..], isT, pred) + Matching(b, isT, pred));
        (head + Matching(a[1..], isT, pred)) + Matching(b, isT, pred);
      }
    } else {
      assert a + b == b;
    }
  }

  /** The matches in the pre-order of a non-empty forest: the first tree's
      root, then its subtree, then the remaining trees. */
  lemma MatchingForest(cs: seq<Node>, isT: Kind -> bool, pred: Node -> bool)
    requires cs != []
    ensures Matching(Forest(cs), isT, pred)
         == (if Matches(cs[0], isT, pred) then [cs[0]] else [])
            + Matching(Forest(cs[0].children), isT, pred)
            + Matching(Forest(cs[1..]), isT, pred)
  {
    MatchingAppend([cs[0]] + Forest(cs[0].children), Forest(cs[1..]), isT, pred);
    MatchingAppend([cs[0]], Forest(cs[0].children), isT, pred);
  }

  /** A node of a forest has fewer descendants than the forest has nodes;
      in particular no node is its own descendant. */
  lemma {:induction false} DescendantHasSmallerSubtree(cs: seq<Node>, x: Node)
    requires x in Forest(cs)
    ensures |Descendants(x)| < |Forest(cs)|
  {
    var rest := Forest(cs[0].children) + Forest(cs[1..]);
    assert Forest(cs) == [cs[0]] + rest;
    if x != cs[0] {
      assert x in rest;
      if x in Forest(cs[0].children) {
        DescendantHasSmallerSubtree(cs[0].children, x);
      } else {
        DescendantHasSmallerSubtree(cs[1..], x);
      }
    }
  }

  lemma NotOwnDescendant(n: Node, x: Node)
    requires x in Descendants(n)
    ensures x != n
  {
    DescendantHasSmallerSubtree(n.children, x);
  }

  // ---------------------------------------------------------------------
  // Downward searches (VisualTreeHelpers.cs, FindVisualChild*)
  // ---------------------------------------------------------------------

  /** The loop of FindVisualChild over the children `cs`: a matching child
      is returned at once, otherwise the child's own subtree is searched
      before the next child. It finds the first pre-order match. */
  function FirstMatch(cs: seq<Node>, isT: Kind -> bool, pred: Node -> bool): (r: Option<Node>)
    ensures r == First(Matching(Forest(cs), isT, pred))
  {
    if cs == [] then None
    else
      MatchingForest(cs, isT, pred);
      if Matches(cs[0], isT, pred) then Some(cs[0])
      else match FirstMatch(cs[0].children, isT, pred)
        case Some(x) => Some(x)
        case None => FirstMatch(cs[1..], isT, pred)
  }

  /** The iterator of FindVisualChildren over the children `cs`: it yields
      each matching child, then everything its subtree yields. */
  function AllMatches(cs: seq<Node>, isT: Kind -> bool, pred: Node -> bool): (r: seq<Node>)
    ensures r == Matching(Forest(cs), isT, pred)
  {
    if cs == [] then []
    else
      MatchingForest(cs, isT, pred);
      (if Matches(cs[0], isT, pred) then [cs[0]] else [])
      + AllMatches(cs[0].children, isT, pred)
      + AllMatches(cs[1..], isT, pred)
  }

  /** FindVisualChild<T>(current): the first proper descendant of kind T in
      pre-order, never `current` itself; null for a null `current`. */
  function FindVisualChild(current: Option<Node>, isT: Kind -> bool): (r: Option<Node>)
    ensures current.None? ==> r.None?
    ensures current.Some? ==> r == First(Matching(Descendants(current.value), isT, Always))
    ensures r.Some? ==> current.Some? && r.value in Descendants(current.value)
                        && isT(r.value.kind) && r.value != current.value
    ensures r.None? && current.Some? ==>
              forall x :: x in Descendants(current.value) ==> !isT(x.kind)
  {
    match current
    case None => None
    case Some(n) =>
      var r := FirstMatch(n.children, isT, Always);
      assert r.Some? ==> r.value != n by { if r.Some? { NotOwnDescendant(n, r.value); } }
      r
  }

  /** FindVisualChild<T>(current, condition): ArgumentException for a null
      condition (tested before `current`); otherwise the first proper
      descendant in pre-order of kind T that satisfies the condition. */
  function FindVisualChildWhere(current: Option<Node>, isT: Kind -> bool, condition: Option<Node -> bool>)
    : (r: Result<Option<Node>>)
    ensures r.ArgumentException? <==> condition.None?
    ensures condition.Some? && current.None? ==> r == Ok(None)
    ensures condition.Some? && current.Some? ==>
              r == Ok(First(Matching(Descendants(current.value), isT, condition.value)))
    ensures r.Ok? && r.value.Some? ==>
              current.Some? && r.value.value in Descendants(current.value)
              && isT(r.value.value.kind) && condition.value(r.value.value)
              && r.value.value != current.value
  {
    match condition
    case None => ArgumentException
    case Some(pred) =>
      match current
      case None => Ok(None)
      case Some(n) =>
        var r := FirstMatch(n.children, isT, pred);
        assert r.Some? ==> r.value != n by { if r.Some? { NotOwnDescendant(n, r.value); } }
        Ok(r)
  }

  /** FindVisualChildren<T>(current, condition): exactly the proper
      descendants of kind T that satisfy the condition, in pre-order; nothing
      for a null `current`. A null condition makes the enumeration throw. */
  function FindVisualChildrenWhere(current: Option<Node>, isT: Kind -> bool, condition: Option<Node -> bool>)
    : (r: Result<seq<Node>>)
    ensures r.ArgumentException? <==> condition.None?
    ensures condition.Some? && current.None? ==> r == Ok([])
    ensures condition.Some? && current.Some? ==>
              r == Ok(Matching(Descendants(current.value), isT, condition.value))
    ensures r.Ok? ==> forall x :: x in r.value ==>
              current.Some? && x in Descendants(current.value) && isT(x.kind)
              && condition.value(x) && x != current.value
  {
    match condition
    case None => ArgumentException
    case Some(pred) =>
      match current
      case None => Ok([])
      case Some(n) =>
        var r := AllMatches(n.children, isT, pred);
        assert forall x :: x in r ==> x != n by {
          forall x | x in r ensures x != n { NotOwnDescendant(n, x); }
        }
        Ok(r)
  }

  /** FindVisualChildren<T>(current): the condition overload with `x => true`,
      i.e. every proper descendant of kind T, in pre-order. */
  function FindVisualChildren(current: Option<Node>, isT: Kind -> bool): (r: seq<Node>)
    ensures r == FindVisualChildrenWhere(current, isT, Some(Always)).value
    ensures current.Some? ==> forall x :: x in Descendants(current.value) ==>
              (x in r <==> isT(x.kind))
    ensures current.None? ==> r == []
  {
    FindVisualChildrenWhere(current, isT, Some(Always)).value
  }

  /** With the same condition, the first element FindVisualChildren yields is
      what FindVisualChild returns. */
  lemma {:induction false} FirstOfChildren(cs: seq<Node>, isT: Kind -> bool, pred: Node -> bool)
    ensures FirstMatch(cs, isT, pred) == First(AllMatches(cs, isT, pred))
  {
    if cs != [] {
      FirstOfChildren(cs[0].children, isT, pred);
      FirstOfChildren(cs[1..], isT, pred);
    }
  }

  lemma FindVisualChildIsFirstOfChildren(current: Option<Node>, isT: Kind -> bool, pred: Node -> bool)
    ensures FindVisualChildWhere(current, isT, Some(pred)).Ok?
    ensures FindVisualChildWhere(current, isT, Some(pred)).value
         == First(FindVisualChildrenWhere(current, isT, Some(pred)).value)
  {
    if current.Some? {
      FirstOfChildren(current.value.children, isT, pred);
    }
  }

  /** FindVisualChildName<T>(current, name): the first proper descendant in
      pre-order of kind T whose Name is `name`; null for a null `current`. */
  function FindVisualChildName(current: Option<Node>, isT: Kind -> bool, name: string): (r: Option<Node>)
    ensures current.None? ==> r.None?
    ensures current.Some? ==> r == First(Matching(Descendants(current.value), isT, HasName(name)))
    ensures r.Some? ==> current.Some? && r.value in Descendants(current.value)
                        && isT(r.value.kind) && r.value.name == name
    ensures r.None? && current.Some? ==>
              forall x :: x in Descendants(current.value) && isT(x.kind) ==> x.name != name
  {
    match current
    case None => None
    case Some(n) =>
      var r := FirstMatch(n.children, isT, HasName(name));
      assert r.Some? ==> Matches(r.value, isT, HasName(name));
      assert r.None? ==> forall x :: x in Descendants(n) && isT(x.kind) ==> !Matches(x, isT, HasName(name));
      r
  }

  // ---------------------------------------------------------------------
  // Positions in a tree
  // ---------------------------------------------------------------------

  /** `p` leads from `n` to one of its nodes. */
  predicate ValidPath(n: Node, p: Path)
  {
    p == [] || (p[0] < |n.children| && ValidPath(n.children[p[0]], p[1..]))
  }

  /** The node at `p` below `n` (the defaults for a path that leaves the
      tree are never used: every search requires a valid path). */
  function At(n: Node, p: Path): Node
  {
    if p == [] || p[0] >= |n.children| then n else At(n.children[p[0]], p[1..])
  }

  /** VisualTreeHelper.GetParent: the path one step up, null at the root. */
  function Parent(p: Path): (r: Option<Path>)
    ensures r.None? <==> p == []
    ensures r.Some? ==> |r.value| + 1 == |p| && r.value == p[..|r.value|]
  {
    if p == [] then None else Some(p[..|p| - 1])
  }

  lemma {:induction false} ValidPrefix(n: Node, p: Path, k: nat)
    requires ValidPath(n, p) && k <= |p|
    ensures ValidPath(n, p[..k])
  {
    if k > 0 {
      assert p[..k][1..] == p[1..][..k - 1];
      ValidPrefix(n.children[p[0]], p[1..], k - 1);
    }
  }

  /** One step down from a node of the tree. */
  lemma {:induction false} AtChild(n: Node, q: Path, j: nat)
    requires ValidPath(n, q) && j < |At(n, q).children|
    ensures ValidPath(n, q + [j])
    ensures At(n, q + [j]) == At(n, q).children[j]
  {
    if q != [] {
      assert (q + [j])[1..] == q[1..] + [j];
      AtChild(n.children[q[0]], q[1..], j);
    }
  }

  /** A non-root node is the child at its last index of its parent. */
  lemma LastStep(n: Node, p: Path)
    requires ValidPath(n, p) && p != []
    ensures p[|p| - 1] < |At(n, p[..|p| - 1]).children|
    ensures p == p[..|p| - 1] + [p[|p| - 1]]
  {
    LastStepAt(n, p);
  }

  lemma {:induction false} LastStepAt(n: Node, p: Path)
    requires ValidPath(n, p) && p != []
    ensures p[|p| - 1] < |At(n, p[..|p| - 1]).children|
  {
    if |p| > 1 {
      assert p[..|p| - 1][1..] == p[1..][..|p[1..]| - 1];
      LastStepAt(n.children[p[0]], p[1..]);
    }
  }

  /** A DependencyObject handed to FindVisualParent: null, an object that is
      neither a Visual nor a Visual3D, or a visual at a position of the tree. */
  datatype Ref = Null | NonVisual | Visual(path: Path)

  function RefTo(p: Option<Path>): Ref
  {
    match p
    case None => Null
    case Some(q) => Visual(q)
  }

  predicate InTree(root: Node, current: Ref)
  {
    current.Visual? ==> ValidPath(root, current.path)
  }

  function RefSize(current: Ref): nat
  {
    match current
    case Null => 0
    case NonVisual => 1
    case Visual(p) => |p| + 2
  }

  /** Depth `k` holds the nearest proper ancestor of the node at `p` that is
      of kind T and satisfies `pred`. */
  predicate IsNearestAncestor(root: Node, p: Path, k: nat, isT: Kind -> bool, pred: Node -> bool)
  {
    && k < |p|
    && Matches(At(root, p[..k]), isT, pred)
    && forall j :: k < j < |p| ==> !Matches(At(root, p[..j]), isT, pred)
  }

  /** No proper ancestor of the node at `p` is of kind T and satisfies `pred`. */
  predicate NoAncestor(root: Node, p: Path, isT: Kind -> bool, pred: Node -> bool)
  {
    forall j :: 0 <= j < |p| ==> !Matches(At(root, p[..j]), isT, pred)
  }

  // ---------------------------------------------------------------------
  // Upward searches (VisualTreeHelpers.cs, FindVisualParent*, EnumerableParents*)
  // ---------------------------------------------------------------------

  /** FindVisualParent<T>(current): the nearest proper ancestor of kind T;
      null for a null or non-visual `current` or when no ancestor is a T. */
  function FindVisualParent(root: Node, current: Ref, isT: Kind -> bool): (r: Option<Path>)
    requires InTree(root, current)
    ensures r.Some? ==> current.Visual?
                        && IsNearestAncestor(root, current.path, |r.value|, isT, Always)
                        && r.value == current.path[..|r.value|]
    ensures r.None? && current.Visual? ==> NoAncestor(root, current.path, isT, Always)
    ensures r.Some? ==> ValidPath(root, r.value)
    decreases RefSize(current)
  {
    match current
    case Null => None
    case NonVisual => None
    case Visual(p) =>
      if p == [] then None
      else
        var q := p[..|p| - 1];
        ValidPrefix(root, p, |p| - 1);
        assert forall j :: 0 <= j <= |q| ==> q[..j] == p[..j];
        if isT(At(root, q).kind) then Some(q)
        else FindVisualParent(root, Visual(q), isT)
  }

  /** When the nearest T-ancestor at depth `k` fails `pred`, the nearest
      T-ancestor satisfying `pred` above it is the one for the whole path. */
  lemma NearestAncestorAbove(root: Node, p: Path, k: nat, m: nat, isT: Kind -> bool, pred: Node -> bool)
    requires IsNearestAncestor(root, p, k, isT, Always) && !pred(At(root, p[..k]))
    requires IsNearestAncestor(root, p[..k], m, isT, pred)
    ensures IsNearestAncestor(root, p, m, isT, pred) && p[..k][..m] == p[..m]
  {
    assert forall j :: 0 <= j <= k ==> p[..k][..j] == p[..j];
  }

  /** When the nearest T-ancestor at depth `k` fails `pred` and nothing above
      it matches, nothing matches at all. */
  lemma NoAncestorAbove(root: Node, p: Path, k: nat, isT: Kind -> bool, pred: Node -> bool)
    requires IsNearestAncestor(root, p, k, isT, Always) && !pred(At(root, p[..k]))
    requires NoAncestor(root, p[..k], isT, pred)
    ensures NoAncestor(root, p, isT, pred)
  {
    assert forall j :: 0 <= j <= k ==> p[..k][..j] == p[..j];
  }

  /** FindVisualParent<T>(current, condition): ArgumentException for a null
      condition; otherwise the nearest proper ancestor of kind T that
      satisfies the condition (found by asking FindVisualParent<T> again from
      each T-ancestor the condition rejects). */
  function FindVisualParentWhere(root: Node, current: Ref, isT: Kind -> bool, condition: Option<Node -> bool>)
    : (r: Result<Option<Path>>)
    requires InTree(root, current)
    ensures r.ArgumentException? <==> condition.None?
    ensures r.Ok? && r.value.Some? ==>
              current.Visual?
              && IsNearestAncestor(root, current.path, |r.value.value|, isT, condition.value)
              && r.value.value == current.path[..|r.value.value|]
    ensures r.Ok? && r.value.None? && current.Visual? ==>
              NoAncestor(root, current.path, isT, condition.value)
    decreases RefSize(current)
  {
    match condition
    case None => ArgumentException
    case Some(pred) =>
      if current.Null? then Ok(None)
      else
        var result := FindVisualParent(root, current, isT);
        if result.Some? && pred(At(root, result.value)) then Ok(result)
        else
          var r := FindVisualParentWhere(root, RefTo(result), isT, condition);
          if current.Visual? && result.Some? then
            var p, k := current.path, |result.value|;
            if r.value.Some? then
              NearestAncestorAbove(root, p, k, |r.value.value|, isT, pred);
              r
            else
              NoAncestorAbove(root, p, k, isT, pred);
              r
          else r
  }

  /** EnumerableParents<T>(current): walks up from `current`, yielding each
      parent as a T (null where the parent is not a T), ending with the null
      parent of the root. For a node at depth d that is d + 1 items. */
  method EnumerableParentsOf(root: Node, current: Option<Path>, isT: Kind -> bool)
    returns (items: seq<Option<Path>>)
    requires current.Some? ==> ValidPath(root, current.value)
    ensures current.None? ==> items == []
    ensures current.Some? ==> |items| == |current.value| + 1 && items[|current.value|] == None
    ensures current.Some? ==> forall i :: 0 <= i < |current.value| ==>
              var q := current.value[..|current.value| - 1 - i];
              items[i] == if isT(At(root, q).kind) then Some(q) else None
  {
    items := [];
    if current.None? {
      return;
    }
    var p := current.value;
    var cur := current;
    while cur.Some?
      invariant cur.Some? ==> |cur.value| + |items| == |p| && cur.value == p[..|cur.value|]
      invariant cur.None? ==> |items| == |p| + 1 && items[|p|] == None
      invariant forall i :: 0 <= i < |items| && i < |p| ==>
                  var q := p[..|p| - 1 - i];
                  items[i] == if isT(At(root, q).kind) then Some(q) else None
      decreases if cur.Some? then |cur.value| + 1 else 0
    {
      var parent := Parent(cur.value);
      var item := if parent.Some? && isT(At(root, parent.value).kind) then parent else None;
      items := items + [item];
      cur := parent;
    }
  }

  /** Every kind is a DependencyObject. */
  function AnyKind(k: Kind): bool
  {
    true
  }

  /** EnumerableParents(current): the successive ancestors, then null. */
  method EnumerableParents(root: Node, current: Option<Path>) returns (items: seq<Option<Path>>)
    requires current.Some? ==> ValidPath(root, current.value)
    ensures current.None? ==> items == []
    ensures current.Some? ==> |items| == |current.value| + 1 && items[|current.value|] == None
    ensures current.Some? ==> forall i :: 0 <= i < |current.value| ==>
              items[i] == Some(current.value[..|current.value| - 1 - i])
  {
    items := EnumerableParentsOf(root, current, AnyKind);
  }

  /** FindVisualMostParent(current): the root of the tree, reached by
      following parents from `current`; `current` itself when it has no
      parent; null for null. */
  function FindVisualMostParent(root: Node, current: Option<Path>): (r: Option<Path>)
    requires current.Some? ==> ValidPath(root, current.value)
    ensures r.None? <==> current.None?
    ensures r.Some? ==> Parent(r.value).None? && r.value == current.value[..|r.value|]
    ensures current == Some([]) ==> r == current
    decreases if current.Some? then |current.value| else 0
  {
    match current
    case None => None
    case Some(p) =>
      if p == [] then current
      else
        ValidPrefix(root, p, |p| - 1);
        FindVisualMostParent(root, Parent(p))
  }

  /** FindVisualMostParent<T>(current), as written: it takes the parent and
      the nearest T above the parent, and returns the parent only when it is
      a T with no T above it. So it returns the SECOND T-ancestor when the
      parent is a T and another T lies above, the nearest T-ancestor when
      the parent is not a T, and null at the root. */
  function FindVisualMostParentOf(root: Node, current: Option<Path>, isT: Kind -> bool): (r: Option<Path>)
    requires current.Some? ==> ValidPath(root, current.value)
    ensures current.None? || current == Some([]) ==> r.None?
    ensures current.Some? && current.value != [] ==>
              var p := current.value;
              var d := |p| - 1;
              && (r.Some? && |r.value| < d ==>
                    (IsNearestAncestor(root, p[..d], |r.value|, isT, Always) && r.value == p[..|r.value|]))
              && (r.Some? && |r.value| >= d ==>
                    (r.value == p[..d] && isT(At(root, p[..d]).kind) && NoAncestor(root, p[..d], isT, Always)))
              && (r.None? ==> NoAncestor(root, p, isT, Always))
  {
    match current
    case None => None
    case Some(p) =>
      var parent := Parent(p);
      assert parent.Some? ==> ValidPath(root, parent.value) by {
        if parent.Some? { ValidPrefix(root, p, |p| - 1); }
      }
      var result2 := FindVisualParent(root, RefTo(parent), isT);
      assert forall j :: 0 <= j < |p| ==> p[..|p| - 1][..j] == p[..j];
      if parent.Some? && isT(At(root, parent.value).kind) && result2.None? then parent
      else result2
  }

  /** The top-most proper ancestor of kind T, which the name
      FindVisualMostParent<T> and the untyped FindVisualMostParent promise:
      follows FindVisualParent<T> upward until no T remains. */
  function TopmostParentOf(root: Node, current: Option<Path>, isT: Kind -> bool): (r: Option<Path>)
    requires current.Some? ==> ValidPath(root, current.value)
    ensures current.None? ==> r.None?
    ensures r.Some? ==>
              (current.Some? && |r.value| < |current.value| && r.value == current.value[..|r.value|]
               && isT(At(root, r.value).kind) && NoAncestor(root, r.value, isT, Always))
    ensures r.None? && current.Some? ==> NoAncestor(root, current.value, isT, Always)
    decreases if current.Some? then |current.value| else 0
  {
    match current
    case None => None
    case Some(p) =>
      match FindVisualParent(root, Visual(p), isT)
      case None => None
      case Some(q) =>
        var above := TopmostParentOf(root, Some(q), isT);
        assert forall j :: 0 <= j <= |q| ==> q[..j] == p[..j];
        if above.Some? then above else Some(q)
  }

  /** Three T's stacked above a leaf: the as-written helper returns the
      middle one, the top-most is the root. */
  lemma MostParentOfMissesTopmost()
    ensures ValidPath(Node("T", "", [Node("T", "", [Node("T", "", [Node("Leaf", "", [])])])]), [0, 0, 0])
    ensures var leaf := Node("Leaf", "", []);
            var t2 := Node("T", "", [leaf]);
            var t1 := Node("T", "", [t2]);
            var t0 := Node("T", "", [t1]);
            var isT := (k: Kind) => k == "T";
            && FindVisualMostParentOf(t0, Some([0, 0, 0]), isT) == Some([0])
            && TopmostParentOf(t0, Some([0, 0, 0]), isT) == Some([])
  {
    var leaf := Node("Leaf", "", []);
    var t2 := Node("T", "", [leaf]);
    var t1 := Node("T", "", [t2]);
    var t0 := Node("T", "", [t1]);
    var isT := (k: Kind) => k == "T";
    var p: Path := [0, 0, 0];
    assert ValidPath(t0, p) by {
      assert ValidPath(t2, [0]);
      assert ValidPath(t1, [0, 0]) by { assert [0, 0][1..] == [0]; }
      assert p[1..] == [0, 0];
    }
    assert At(t2, []) == t2;
    assert At(t1, [0]) == t2 by { assert [0][1..] == []; }
    assert At(t0, [0]) == t1 by { assert [0][1..] == []; assert At(t1, []) == t1; }
    assert At(t0, [0, 0]) == t2 by { assert [0, 0][1..] == [0]; }
    assert p[..2] == [0, 0] && p[..1] == [0] && p[..0] == [];
    assert [0, 0][..1] == [0] && [0][..0] == [] && p[..2] == [0, 0];
    assert isT("T");
    assert FindVisualParent(t0, Visual([]), isT) == None;
    assert FindVisualParent(t0, Visual([0]), isT) == Some([]);
    assert FindVisualParent(t0, Visual([0, 0]), isT) == Some([0]);
    assert FindVisualParent(t0, Visual(p), isT) == Some([0, 0]);
    assert TopmostParentOf(t0, Some([]), isT) == None;
    assert TopmostParentOf(t0, Some([0]), isT) == Some([]);
    assert TopmostParentOf(t0, Some([0, 0]), isT) == Some([]);
  }

  // ---------------------------------------------------------------------
  // Siblings (VisualTreeHelpers.cs, FindVisualSiblings / FindVisualSibling)
  // ---------------------------------------------------------------------

  /** The positions `q + [j]`, from `j == i` on, of the children `cs` of
      the node at `q` whose kind is T, in increasing child order. */
  function ChildPathsOfKind(q: Path, cs: seq<Node>, isT: Kind -> bool, i: nat): (r: seq<Path>)
    requires i <= |cs|
    ensures forall k :: 0 <= k < |r| ==>
              |r[k]| == |q| + 1 && r[k][..|q|] == q && i <= r[k][|q|] < |cs| && isT(cs[r[k][|q|]].kind)
    ensures forall k, l :: 0 <= k < l < |r| ==> r[k][|q|] < r[l][|q|]
    ensures forall j :: i <= j < |cs| && isT(cs[j].kind) ==> q + [j] in r
    decreases |cs| - i
  {
    if i == |cs| then []
    else (if isT(cs[i].kind) then [q + [i]] else []) + ChildPathsOfKind(q, cs, isT, i + 1)
  }

  /** `s` holds, in increasing child order, the positions of exactly those
      children of the node at `q` whose kind is T. */
  predicate ChildrenOfKind(root: Node, q: Path, s: seq<Path>, isT: Kind -> bool)
  {
    var cs := At(root, q).children;
    && (forall k :: 0 <= k < |s| ==>
          |s[k]| == |q| + 1 && s[k][..|q|] == q && s[k][|q|] < |cs| && isT(cs[s[k][|q|]].kind))
    && (forall k, l :: 0 <= k < l < |s| ==> s[k][|q|] < s[l][|q|])
    && (forall j :: 0 <= j < |cs| && isT(cs[j].kind) ==> q + [j] in s)
  }

  /** FindVisualSiblings<T>(current): null for a null or parentless
      `current`; otherwise the positions of all children of the parent that
      are T, in child order, `current` included when it is a T. */
  function FindVisualSiblings(root: Node, current: Option<Path>, isT: Kind -> bool): (r: Option<seq<Path>>)
    requires current.Some? ==> ValidPath(root, current.value)
    ensures r.None? <==> current.None? || current.value == []
    ensures r.Some? ==> ChildrenOfKind(root, current.value[..|current.value| - 1], r.value, isT)
    ensures r.Some? && isT(At(root, current.value).kind) ==> current.value in r.value
  {
    match current
    case None => None
    case Some(p) =>
      if p == [] then None
      else
        var q := p[..|p| - 1];
        ValidPrefix(root, p, |p| - 1);
        LastStep(root, p);
        AtChild(root, q, p[|p| - 1]);
        Some(ChildPathsOfKind(q, At(root, q).children, isT, 0))
  }

  /** The first listed child of kind T is the lowest-indexed one, and an
      empty list means no child is a T. */
  lemma FirstChildOfKindIsLowest(root: Node, q: Path, s: seq<Path>, isT: Kind -> bool)
    requires ChildrenOfKind(root, q, s, isT)
    ensures var cs := At(root, q).children;
            && (s != [] ==>
                  && |s[0]| == |q| + 1 && s[0][..|q|] == q && s[0][|q|] < |cs| && isT(cs[s[0][|q|]].kind)
                  && forall j :: 0 <= j < s[0][|q|] ==> !isT(cs[j].kind))
            && (s == [] ==> forall j :: 0 <= j < |cs| ==> !isT(cs[j].kind))
  {
    var cs := At(root, q).children;
    forall j | 0 <= j < |cs| && isT(cs[j].kind) ensures s != [] && s[0][|q|] <= j {
      var k :| 0 <= k < |s| && s[k] == q + [j];
      assert s[k][|q|] == j;
    }
  }

  /** FindVisualSibling<T>(current): the first of FindVisualSiblings<T>, the
      lowest-indexed child of the parent that is a T; null when there is
      none or `current` is null or parentless. */
  function FindVisualSibling(root: Node, current: Option<Path>, isT: Kind -> bool): (r: Option<Path>)
    requires current.Some? ==> ValidPath(root, current.value)
    ensures current.None? || current.value == [] ==> r.None?
    ensures current.Some? && current.value != [] ==>
              var q := current.value[..|current.value| - 1];
              var cs := At(root, q).children;
              && (r.Some? ==>
                    (|r.value| == |q| + 1 && r.value[..|q|] == q && r.value[|q|] < |cs|
                     && isT(cs[r.value[|q|]].kind)
                     && forall j :: 0 <= j < r.value[|q|] ==> !isT(cs[j].kind)))
              && (r.None? ==> forall j :: 0 <= j < |cs| ==> !isT(cs[j].kind))
  {
    if current.None? || current.value == [] then None
    else
      var s := FindVisualSiblings(root, current, isT).value;
      FirstChildOfKindIsLowest(root, current.value[..|current.value| - 1], s, isT);
      if s == [] then None else Some(s[0])
  }
}
