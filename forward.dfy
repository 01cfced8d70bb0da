/** Forward conversion: content-head to function-head. A post-order walk
    that, at each node not labelled root, swaps heads with the first
    function word of its left list and the last one of its right list. Only the head column changes; the child lists stay as they
    were built. */
module Forward {
  import opened Conll
  import opened Rules

  /** The first of `children`, in the order given, that is a function
      word, or the sentinel -1. */
  ghost function FirstTarget(tokens: seq<Token>, children: seq<int>): (t: int)
    requires IndicesIn(children, |tokens|)
    ensures t == -1 || (0 <= t < |tokens| && t in children)
    decreases |children|
  {
    if children == [] then -1
    else if IsFunctionWord(tokens[children[0]]) then children[0]
    else FirstTarget(tokens, children[1..])
  }

  lemma {:induction false} FirstTargetIsFirst(tokens: seq<Token>, children: seq<int>)
    requires IndicesIn(children, |tokens|)
    ensures FirstTarget(tokens, children) == -1 <==>
              forall j :: 0 <= j < |children| ==> !IsFunctionWord(tokens[children[j]])
    ensures FirstTarget(tokens, children) != -1 ==>
              exists j :: && 0 <= j < |children| && children[j] == FirstTarget(tokens, children)
                          && IsFunctionWord(tokens[children[j]])
                          && forall j' :: 0 <= j' < j ==> !IsFunctionWord(tokens[children[j']])
    decreases |children|
  {
    if children != [] && !IsFunctionWord(tokens[children[0]]) {
      var rest := children[1..];
      FirstTargetIsFirst(tokens, rest);
      assert forall j :: 1 <= j < |children| ==> children[j] == rest[j - 1];
      if FirstTarget(tokens, rest) != -1 {
        var j :| && 0 <= j < |rest| && rest[j] == FirstTarget(tokens, rest)
                 && IsFunctionWord(tokens[rest[j]])
                 && forall j' :: 0 <= j' < j ==> !IsFunctionWord(tokens[rest[j']]);
        assert children[j + 1] == FirstTarget(tokens, children);
        assert forall j' :: 0 <= j' < j + 1 ==> !IsFunctionWord(tokens[children[j']]) by {
          forall j' | 0 <= j' < j + 1 ensures !IsFunctionWord(tokens[children[j']]) {
            if j' > 0 { assert children[j'] == rest[j' - 1]; }
          }
        }
      }
    }
  }

  /** Scans `children` in the order given; -1 when no function word is found. */
  method SearchForward(s: Sentence, children: seq<int>) returns (t: int)
    requires IndicesIn(children, |s.tokens|)
    ensures t == FirstTarget(s.tokens, children)
    ensures t == -1 <==> forall j :: 0 <= j < |children| ==> !IsFunctionWord(s.tokens[children[j]])
    ensures t != -1 ==>
              exists j :: && 0 <= j < |children| && children[j] == t
                          && IsFunctionWord(s.tokens[t])
                          && forall j' :: 0 <= j' < j ==> !IsFunctionWord(s.tokens[children[j']])
  {
    var k := 0;
    while k < |children|
      invariant 0 <= k <= |children|
      invariant forall j :: 0 <= j < k ==> !IsFunctionWord(s.tokens[children[j]])
      invariant FirstTarget(s.tokens, children) == FirstTarget(s.tokens, children[k..])
    {
      var c := children[k];
      if IsFunctionWord(s.tokens[c]) {
        return c;
      }
      assert children[k..][1..] == children[k + 1..];
      k := k + 1;
    }
    return -1;
  }

  /** `reversed(xs)` as a sequence. */
  function Reverse(xs: seq<int>): (r: seq<int>)
    ensures |r| == |xs|
    ensures forall i :: 0 <= i < |xs| ==> r[i] == xs[|xs| - 1 - i]
    decreases |xs|
  {
    if xs == [] then [] else Reverse(xs[1..]) + [xs[0]]
  }

  lemma ReverseMembers(xs: seq<int>, n: int)
    ensures forall x :: x in Reverse(xs) <==> x in xs
    ensures IndicesIn(xs, n) ==> IndicesIn(Reverse(xs), n)
  {
    var r := Reverse(xs);
    forall x | x in xs ensures x in r {
      var i :| 0 <= i < |xs| && xs[i] == x;
      assert r[|xs| - 1 - i] == x;
    }
  }

  /** The rotation of `change_dep_forward` applied to head column h: the
      child c takes p's head and p hangs under c, unless p is the root. */
  ghost function ForwardRotation(tokens: seq<Token>, h: seq<int>, c: nat, p: nat): (r: seq<int>)
    requires |h| == |tokens| && c < |h| && p < |h|
    ensures |r| == |h|
    ensures tokens[p].deprel == "root" ==> r == h
    ensures tokens[p].deprel != "root" ==>
              && r[p] == c + 1 && (c != p ==> r[c] == h[p])
              && forall i :: 0 <= i < |h| && i != c && i != p ==> r[i] == h[i]
    ensures HeadsInRange(h) ==> HeadsInRange(r)
  {
    if tokens[p].deprel != "root" then h[c := h[p]][p := c + 1] else h
  }

  method ChangeDepForward(s: Sentence, c: nat, p: nat)
    requires s.Valid() && c < |s.tokens| && p < |s.tokens|
    modifies s`head
    ensures s.Valid()
    ensures s.head == ForwardRotation(s.tokens, old(s.head), c, p)
  {
    if s.tokens[p].deprel != "root" {
      s.head := s.head[c := s.head[p]];
      s.head := s.head[p := c + 1];
    }
  }

  /** Child lists that cannot lead back to a node: every child has a
      smaller rank than its parent. Lists built from the heads of a tree
      have such a rank (its height). */
  ghost predicate Ranked(n: nat, left: seq<seq<int>>, right: seq<seq<int>>, rank: seq<nat>)
  {
    && |left| == n && |right| == n && |rank| == n
    && (forall i, j :: 0 <= i < n && 0 <= j < |left[i]| ==> 0 <= left[i][j] < n && rank[left[i][j]] < rank[i])
    && (forall i, j :: 0 <= i < n && 0 <= j < |right[i]| ==> 0 <= right[i][j] < n && rank[right[i][j]] < rank[i])
  }

  /** Heads that form a tree, witnessed by a rank that grows towards the root. */
  ghost predicate HeadsRanked(head: seq<int>, rank: seq<nat>)
  {
    && |rank| == |head|
    && forall i :: 0 <= i < |head| && head[i] != 0 ==> 1 <= head[i] <= |head| && rank[i] < rank[head[i] - 1]
  }

  /** The child lists `create_tree` builds from the heads of a tree are acyclic,
      so forward conversion started on any token terminates. */
  lemma TreeListsRanked(head: seq<int>, left: seq<seq<int>>, right: seq<seq<int>>, rank: seq<nat>)
    requires HeadsRanked(head, rank) && |left| == |head| && |right| == |head|
    requires ListsMatchHeads(head, left, right)
    ensures Ranked(|head|, left, right, rank)
  {
    forall i, j | 0 <= i < |head| && 0 <= j < |left[i]|
      ensures 0 <= left[i][j] < |head| && rank[left[i][j]] < rank[i]
    {
      var c := left[i][j];
      assert c in left[i];
      assert 0 <= c < |head| && head[c] == i + 1;
    }
    forall i, j | 0 <= i < |head| && 0 <= j < |right[i]|
      ensures 0 <= right[i][j] < |head| && rank[right[i][j]] < rank[i]
    {
      var c := right[i][j];
      assert c in right[i];
      assert 0 <= c < |head| && head[c] == i + 1;
    }
  }

  /** The head column after `convert_forward(p)` from head column h. */
  ghost function ForwardHeads(tokens: seq<Token>, left: seq<seq<int>>, right: seq<seq<int>>,
                              rank: seq<nat>, h: seq<int>, p: nat): (r: seq<int>)
    requires |tokens| == |h| && Ranked(|h|, left, right, rank) && p < |h|
    ensures |r| == |h|
    ensures HeadsInRange(h) ==> HeadsInRange(r)
    decreases rank[p], 1
  {
    var h1 := ForwardList(tokens, left, right, rank, h, left[p], p);
    var t1 := FirstTarget(tokens, left[p]);
    var h2 := if t1 == -1 then h1 else ForwardRotation(tokens, h1, t1, p);
    var h3 := ForwardList(tokens, left, right, rank, h2, right[p], p);
    ReverseMembers(right[p], |h|);
    var t2 := FirstTarget(tokens, Reverse(right[p]));
    if t2 == -1 then h3 else ForwardRotation(tokens, h3, t2, p)
  }

  /** Converts each of the children cs of p in turn. */
  ghost function ForwardList(tokens: seq<Token>, left: seq<seq<int>>, right: seq<seq<int>>,
                             rank: seq<nat>, h: seq<int>, cs: seq<int>, p: nat): (r: seq<int>)
    requires |tokens| == |h| && Ranked(|h|, left, right, rank) && p < |h|
    requires forall j :: 0 <= j < |cs| ==> 0 <= cs[j] < |h| && rank[cs[j]] < rank[p]
    ensures |r| == |h|
    ensures HeadsInRange(h) ==> HeadsInRange(r)
    decreases rank[p], 0, |cs|
  {
    if cs == [] then h
    else ForwardList(tokens, left, right, rank, ForwardHeads(tokens, left, right, rank, h, cs[0]), cs[1..], p)
  }

  method ConvertForward(s: Sentence, p: nat, ghost rank: seq<nat>)
    requires s.Valid() && p < |s.tokens| && Ranked(|s.tokens|, s.leftChild, s.rightChild, rank)
    modifies s`head
    ensures s.Valid()
    ensures s.head == ForwardHeads(s.tokens, s.leftChild, s.rightChild, rank, old(s.head), p)
    decreases rank[p], 1
  {
    ConvertList(s, s.leftChild[p], p, rank);
    var t := SearchForward(s, s.leftChild[p]);
    if t != -1 {
      ChangeDepForward(s, t, p);
    }
    ConvertList(s, s.rightChild[p], p, rank);
    ReverseMembers(s.rightChild[p], |s.tokens|);
    t := SearchForward(s, Reverse(s.rightChild[p]));
    if t != -1 {
      ChangeDepForward(s, t, p);
    }
  }

  /** `[self.convert_forward(child, sentence) for child in cs]`. */
  method ConvertList(s: Sentence, cs: seq<int>, p: nat, ghost rank: seq<nat>)
    requires s.Valid() && p < |s.tokens| && Ranked(|s.tokens|, s.leftChild, s.rightChild, rank)
    requires forall j :: 0 <= j < |cs| ==> 0 <= cs[j] < |s.tokens| && rank[cs[j]] < rank[p]
    modifies s`head
    ensures s.Valid()
    ensures s.head == ForwardList(s.tokens, s.leftChild, s.rightChild, rank, old(s.head), cs, p)
    decreases rank[p], 0
  {
    var k := 0;
    while k < |cs|
      invariant 0 <= k <= |cs|
      invariant s.Valid()
      invariant ForwardList(s.tokens, s.leftChild, s.rightChild, rank, s.head, cs[k..], p)
             == ForwardList(s.tokens, s.leftChild, s.rightChild, rank, old(s.head), cs, p)
    {
      assert cs[k..][1..] == cs[k + 1..];
      ConvertForward(s, cs[k], rank);
      k := k + 1;
    }
  }

  // ---- which tokens forward conversion may touch ----

  /** The tokens reachable from p through the child lists. */
  ghost function Subtree(left: seq<seq<int>>, right: seq<seq<int>>, rank: seq<nat>, p: nat): set<int>
    requires Ranked(|rank|, left, right, rank) && p < |rank|
    decreases rank[p], 1
  {
    {p} + Subtrees(left, right, rank, left[p], p) + Subtrees(left, right, rank, right[p], p)
  }

  ghost function Subtrees(left: seq<seq<int>>, right: seq<seq<int>>, rank: seq<nat>, cs: seq<int>, p: nat): set<int>
    requires Ranked(|rank|, left, right, rank) && p < |rank|
    requires forall j :: 0 <= j < |cs| ==> 0 <= cs[j] < |rank| && rank[cs[j]] < rank[p]
    decreases rank[p], 0, |cs|
  {
    if cs == [] then {} else Subtree(left, right, rank, cs[0]) + Subtrees(left, right, rank, cs[1..], p)
  }

  lemma {:induction false} ChildInSubtrees(left: seq<seq<int>>, right: seq<seq<int>>, rank: seq<nat>,
                                           cs: seq<int>, p: nat, c: int)
    requires Ranked(|rank|, left, right, rank) && p < |rank|
    requires forall j :: 0 <= j < |cs| ==> 0 <= cs[j] < |rank| && rank[cs[j]] < rank[p]
    requires c in cs
    ensures c in Subtrees(left, right, rank, cs, p)
    decreases |cs|
  {
    if cs[0] != c {
      ChildInSubtrees(left, right, rank, cs[1..], p, c);
    }
  }

  /** `convert_forward(p)` changes the head of no token outside p's subtree. */
  lemma {:induction false} ForwardFrame(tokens: seq<Token>, left: seq<seq<int>>, right: seq<seq<int>>,
                                        rank: seq<nat>, h: seq<int>, p: nat, x: nat)
    requires |tokens| == |h| && Ranked(|h|, left, right, rank) && p < |h| && x < |h|
    requires x !in Subtree(left, right, rank, p)
    ensures ForwardHeads(tokens, left, right, rank, h, p)[x] == h[x]
    decreases rank[p], 1
  {
    ForwardListFrame(tokens, left, right, rank, h, left[p], p, x);
    var h1 := ForwardList(tokens, left, right, rank, h, left[p], p);
    var t1 := FirstTarget(tokens, left[p]);
    if t1 != -1 {
      ChildInSubtrees(left, right, rank, left[p], p, t1);
    }
    var h2 := if t1 == -1 then h1 else ForwardRotation(tokens, h1, t1, p);
    ForwardListFrame(tokens, left, right, rank, h2, right[p], p, x);
    ReverseMembers(right[p], |h|);
    var t2 := FirstTarget(tokens, Reverse(right[p]));
    if t2 != -1 {
      ChildInSubtrees(left, right, rank, right[p], p, t2);
    }
  }

  lemma {:induction false} ForwardListFrame(tokens: seq<Token>, left: seq<seq<int>>, right: seq<seq<int>>,
                                            rank: seq<nat>, h: seq<int>, cs: seq<int>, p: nat, x: nat)
    requires |tokens| == |h| && Ranked(|h|, left, right, rank) && p < |h| && x < |h|
    requires forall j :: 0 <= j < |cs| ==> 0 <= cs[j] < |h| && rank[cs[j]] < rank[p]
    requires x !in Subtrees(left, right, rank, cs, p)
    ensures ForwardList(tokens, left, right, rank, h, cs, p)[x] == h[x]
    decreases rank[p], 0, |cs|
  {
    if cs != [] {
      ForwardFrame(tokens, left, right, rank, h, cs[0], x);
      ForwardListFrame(tokens, left, right, rank, ForwardHeads(tokens, left, right, rank, h, cs[0]), cs[1..], p, x);
    }
  }

  /** A root token that is nobody's child keeps its head (0) through
      forward conversion: it is never the function word chosen, and as a
      parent it is never demoted. */
  lemma {:induction false} ForwardKeepsRoot(tokens: seq<Token>, left: seq<seq<int>>, right: seq<seq<int>>,
                                            rank: seq<nat>, h: seq<int>, p: nat, x: nat)
    requires |tokens| == |h| && Ranked(|h|, left, right, rank) && p < |h| && x < |h|
    requires tokens[x].deprel == "root"
    requires forall i, j :: 0 <= i < |h| && 0 <= j < |left[i]| ==> left[i][j] != x
    requires forall i, j :: 0 <= i < |h| && 0 <= j < |right[i]| ==> right[i][j] != x
    ensures ForwardHeads(tokens, left, right, rank, h, p)[x] == h[x]
    decreases rank[p], 1
  {
    ForwardListKeepsRoot(tokens, left, right, rank, h, left[p], p, x);
    var h1 := ForwardList(tokens, left, right, rank, h, left[p], p);
    var t1 := FirstTarget(tokens, left[p]);
    var h2 := if t1 == -1 then h1 else ForwardRotation(tokens, h1, t1, p);
    ForwardListKeepsRoot(tokens, left, right, rank, h2, right[p], p, x);
    ReverseMembers(right[p], |h|);
  }

  lemma {:induction false} ForwardListKeepsRoot(tokens: seq<Token>, left: seq<seq<int>>, right: seq<seq<int>>,
                                                rank: seq<nat>, h: seq<int>, cs: seq<int>, p: nat, x: nat)
    requires |tokens| == |h| && Ranked(|h|, left, right, rank) && p < |h| && x < |h|
    requires forall j :: 0 <= j < |cs| ==> 0 <= cs[j] < |h| && rank[cs[j]] < rank[p]
    requires tokens[x].deprel == "root"
    requires forall i, j :: 0 <= i < |h| && 0 <= j < |left[i]| ==> left[i][j] != x
    requires forall i, j :: 0 <= i < |h| && 0 <= j < |right[i]| ==> right[i][j] != x
    ensures ForwardList(tokens, left, right, rank, h, cs, p)[x] == h[x]
    decreases rank[p], 0, |cs|
  {
    if cs != [] {
      ForwardKeepsRoot(tokens, left, right, rank, h, cs[0], x);
      ForwardListKeepsRoot(tokens, left, right, rank, ForwardHeads(tokens, left, right, rank, h, cs[0]), cs[1..], p, x);
    }
  }

  // ---- what forward conversion does at a node ----

  /** Every token of p's subtree has rank at most p's. */
  lemma {:induction false} SubtreeRank(left: seq<seq<int>>, right: seq<seq<int>>, rank: seq<nat>, p: nat, x: int)
    requires Ranked(|rank|, left, right, rank) && p < |rank|
    requires x in Subtree(left, right, rank, p)
    ensures 0 <= x < |rank| && rank[x] <= rank[p]
    decreases rank[p], 1
  {
    if x != p {
      if x in Subtrees(left, right, rank, left[p], p) {
        SubtreesRank(left, right, rank, left[p], p, x);
      } else {
        SubtreesRank(left, right, rank, right[p], p, x);
      }
    }
  }

  lemma {:induction false} SubtreesRank(left: seq<seq<int>>, right: seq<seq<int>>, rank: seq<nat>,
                                        cs: seq<int>, p: nat, x: int)
    requires Ranked(|rank|, left, right, rank) && p < |rank|
    requires forall j :: 0 <= j < |cs| ==> 0 <= cs[j] < |rank| && rank[cs[j]] < rank[p]
    requires x in Subtrees(left, right, rank, cs, p)
    ensures 0 <= x < |rank| && rank[x] < rank[p]
    decreases rank[p], 0, |cs|
  {
    if x in Subtree(left, right, rank, cs[0]) {
      SubtreeRank(left, right, rank, cs[0], x);
    } else {
      SubtreesRank(left, right, rank, cs[1..], p, x);
    }
  }

  /** At node p: the right rotation uses p's head as the left rotation left
      it. p ends under the function word found last-first among its right
      children, else under the first one among its left children, else
      keeps its head; the right function word takes the head p had after
      the left rotation. A root-labelled p never moves. */
  lemma ForwardAtNode(tokens: seq<Token>, left: seq<seq<int>>, right: seq<seq<int>>,
                      rank: seq<nat>, h: seq<int>, p: nat)
    requires |tokens| == |h| && Ranked(|h|, left, right, rank) && p < |h|
    ensures IndicesIn(Reverse(right[p]), |tokens|)
    ensures var t1 := FirstTarget(tokens, left[p]);
            var t2 := FirstTarget(tokens, Reverse(right[p]));
            var r := ForwardHeads(tokens, left, right, rank, h, p);
            && r[p] == (if tokens[p].deprel == "root" then h[p]
                        else if t2 != -1 then t2 + 1
                        else if t1 != -1 then t1 + 1
                        else h[p])
            && (tokens[p].deprel != "root" && t2 != -1 ==> r[t2] == if t1 != -1 then t1 + 1 else h[p])
  {
    ReverseMembers(right[p], |h|);
    assert p !in Subtrees(left, right, rank, left[p], p) by {
      if p in Subtrees(left, right, rank, left[p], p) {
        SubtreesRank(left, right, rank, left[p], p, p);
      }
    }
    assert p !in Subtrees(left, right, rank, right[p], p) by {
      if p in Subtrees(left, right, rank, right[p], p) {
        SubtreesRank(left, right, rank, right[p], p, p);
      }
    }
    ForwardListFrame(tokens, left, right, rank, h, left[p], p, p);
    var h1 := ForwardList(tokens, left, right, rank, h, left[p], p);
    var t1 := FirstTarget(tokens, left[p]);
    var h2 := if t1 == -1 then h1 else ForwardRotation(tokens, h1, t1, p);
    ForwardListFrame(tokens, left, right, rank, h2, right[p], p, p);
    var h3 := ForwardList(tokens, left, right, rank, h2, right[p], p);
    var t2 := FirstTarget(tokens, Reverse(right[p]));
    assert ForwardHeads(tokens, left, right, rank, h, p) == if t2 == -1 then h3 else ForwardRotation(tokens, h3, t2, p);
    if t2 != -1 {
      var j :| 0 <= j < |right[p]| && right[p][j] == t2;
    }
  }

  /** At node p (not labelled root): the left children are converted before
      the left rotation, so the left function word t1 takes p's original
      head, and keeps it unless the right half of the conversion moves it
      (t1 is the right function word, or lies under a right child). */
  lemma ForwardLeftTarget(tokens: seq<Token>, left: seq<seq<int>>, right: seq<seq<int>>,
                          rank: seq<nat>, h: seq<int>, p: nat)
    requires |tokens| == |h| && Ranked(|h|, left, right, rank) && p < |h|
    requires tokens[p].deprel != "root"
    ensures IndicesIn(Reverse(right[p]), |tokens|)
    ensures var t1 := FirstTarget(tokens, left[p]);
            var t2 := FirstTarget(tokens, Reverse(right[p]));
            var r := ForwardHeads(tokens, left, right, rank, h, p);
            t1 != -1 && t1 != t2 && t1 !in Subtrees(left, right, rank, right[p], p) ==> r[t1] == h[p]
  {
    ReverseMembers(right[p], |h|);
    var t1 := FirstTarget(tokens, left[p]);
    var t2 := FirstTarget(tokens, Reverse(right[p]));
    if t1 != -1 && t1 != t2 && t1 !in Subtrees(left, right, rank, right[p], p) {
      assert p !in Subtrees(left, right, rank, left[p], p) by {
        if p in Subtrees(left, right, rank, left[p], p) {
          SubtreesRank(left, right, rank, left[p], p, p);
        }
      }
      ForwardListFrame(tokens, left, right, rank, h, left[p], p, p);
      var h1 := ForwardList(tokens, left, right, rank, h, left[p], p);
      var h2 := ForwardRotation(tokens, h1, t1, p);
      assert h2[t1] == h[p];
      ForwardListFrame(tokens, left, right, rank, h2, right[p], p, t1);
      var h3 := ForwardList(tokens, left, right, rank, h2, right[p], p);
      assert ForwardHeads(tokens, left, right, rank, h, p) == if t2 == -1 then h3 else ForwardRotation(tokens, h3, t2, p);
    }
  }
}
