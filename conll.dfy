/** Tokens of one CoNLL-U sentence, held as an arena indexed 0..n-1.
    Token i has id i+1; a head value of 0 means the root. */
module Conll {

  /** The two columns the rewriting engine reads and never rewrites. */
  datatype Token = Token(upos: string, deprel: string)

  /** The failure raised while converting: `list.remove` of an index that
      is not in the list, or the recursion budget of the model running out. */
  datatype Error = NotInList(token: int, child: int) | OutOfFuel

  datatype Result<+T> = Ok(value: T) | Err(error: Error) {
    predicate IsFailure() { Err? }
    function PropagateFailure<U>(): Result<U> requires Err? { Err(error) }
    function Extract(): T requires Ok? { value }
  }

  /** Outcome of a converting method that changes the sentence in place. */
  datatype Status = Done | Failed(error: Error)

  /** A method's status and the state it leaves, read as a result. */
  function Outcome(st: Status, a: Arcs): Result<Arcs>
  {
    if st.Done? then Ok(a) else Err(st.error)
  }

  /** The mutable part of a sentence, as a value. */
  datatype Arcs = Arcs(head: seq<int>, left: seq<seq<int>>, right: seq<seq<int>>)

  ghost predicate HeadsInRange(head: seq<int>)
  {
    forall i :: 0 <= i < |head| ==> 0 <= head[i] <= |head|
  }

  ghost predicate IndicesIn(cs: seq<int>, n: int)
  {
    forall j :: 0 <= j < |cs| ==> 0 <= cs[j] < n
  }

  ghost predicate EntriesInRange(lists: seq<seq<int>>, n: int)
  {
    forall i, j :: 0 <= i < |lists| && 0 <= j < |lists[i]| ==> 0 <= lists[i][j] < n
  }

  /** Every head names a token or the root, every child entry names a token. */
  ghost predicate WellFormed(n: nat, a: Arcs)
  {
    && |a.head| == n && |a.left| == n && |a.right| == n
    && HeadsInRange(a.head)
    && EntriesInRange(a.left, n) && EntriesInRange(a.right, n)
  }

  class Sentence {
    const tokens: seq<Token>
    var head: seq<int>
    var leftChild: seq<seq<int>>
    var rightChild: seq<seq<int>>

    ghost predicate Valid()
      reads this
    {
      WellFormed(|tokens|, State())
    }

    /** The head column and both child lists, as a value. */
    function State(): Arcs
      reads this
    {
      Arcs(head, leftChild, rightChild)
    }

    /** A token record as read: both child lists start empty. */
    constructor (tokens: seq<Token>, head: seq<int>)
      requires |head| == |tokens| && HeadsInRange(head)
      ensures Valid()
      ensures this.tokens == tokens && this.head == head
      ensures forall i :: 0 <= i < |tokens| ==> leftChild[i] == [] && rightChild[i] == []
    {
      this.tokens := tokens;
      this.head := head;
      leftChild := seq(|tokens|, _ => []);
      rightChild := seq(|tokens|, _ => []);
    }
  }

  /** The tokens c < k that hang under token p on the given side, in
      ascending order. `create_tree` puts c on the left when c is less than
      the head's id, that is when c <= p. */
  function Dependents(head: seq<int>, p: int, k: nat, left: bool): (r: seq<int>)
    requires k <= |head|
    decreases k
  {
    if k == 0 then []
    else
      Dependents(head, p, k - 1, left)
      + (if head[k - 1] == p + 1 && (k - 1 < p + 1) == left then [k - 1] else [])
  }

  lemma {:induction false} DependentsSpec(head: seq<int>, p: int, k: nat, left: bool)
    requires k <= |head|
    ensures forall c :: c in Dependents(head, p, k, left) <==>
              0 <= c < k && head[c] == p + 1 && (c <= p) == left
    ensures forall a, b :: 0 <= a < b < |Dependents(head, p, k, left)| ==>
              Dependents(head, p, k, left)[a] < Dependents(head, p, k, left)[b]
    decreases k
  {
    if k > 0 {
      DependentsSpec(head, p, k - 1, left);
      var prev := Dependents(head, p, k - 1, left);
      assert forall a :: 0 <= a < |prev| ==> prev[a] < k - 1 by {
        forall a | 0 <= a < |prev| ensures prev[a] < k - 1 {
          assert prev[a] in prev;
        }
      }
    }
  }

  /** Appending a token index to one child list keeps every entry in range. */
  lemma AppendInRange(lists: seq<seq<int>>, n: int, h: int, x: int)
    requires EntriesInRange(lists, n) && 0 <= h < |lists| && 0 <= x < n
    ensures EntriesInRange(lists[h := lists[h] + [x]], n)
  {
  }

  /** The adjacency invariant of a dependency tree: a token's index is in
      exactly the child list of its head that matches its position. */
  ghost predicate ListsMatchHeads(head: seq<int>, left: seq<seq<int>>, right: seq<seq<int>>)
    requires |left| == |head| && |right| == |head|
  {
    && (forall p, c {:trigger c in left[p]} :: 0 <= p < |head| ==>
          (c in left[p] <==> 0 <= c < |head| && head[c] == p + 1 && c <= p))
    && (forall p, c {:trigger c in right[p]} :: 0 <= p < |head| ==>
          (c in right[p] <==> 0 <= c < |head| && head[c] == p + 1 && c > p))
  }

  ghost predicate Ascending(xs: seq<int>)
  {
    forall a, b :: 0 <= a < b < |xs| ==> xs[a] < xs[b]
  }

  /** Distributes every token's index into its head's left or right child
      list; tokens whose head is 0 go nowhere. */
  method CreateTree(s: Sentence)
    requires s.Valid()
    modifies s`leftChild, s`rightChild
    ensures s.Valid() && s.head == old(s.head)
    ensures forall p :: 0 <= p < |s.tokens| ==>
              && s.leftChild[p] == old(s.leftChild[p]) + Dependents(s.head, p, |s.head|, true)
              && s.rightChild[p] == old(s.rightChild[p]) + Dependents(s.head, p, |s.head|, false)
  {
    var n, head := |s.tokens|, s.head;
    var left, right := s.leftChild, s.rightChild;
    var i := 0;
    while i < n
      invariant 0 <= i <= n && |left| == n && |right| == n
      invariant EntriesInRange(left, n) && EntriesInRange(right, n)
      invariant forall p :: 0 <= p < n ==>
                  && left[p] == old(s.leftChild[p]) + Dependents(head, p, i, true)
                  && right[p] == old(s.rightChild[p]) + Dependents(head, p, i, false)
    {
      var h := head[i] - 1;
      if h != -1 {
        if i < h + 1 {
          AppendInRange(left, n, h, i);
          left := left[h := left[h] + [i]];
        } else {
          AppendInRange(right, n, h, i);
          right := right[h := right[h] + [i]];
        }
      }
      i := i + 1;
    }
    s.leftChild, s.rightChild := left, right;
  }

  /** Built from empty lists, the child lists satisfy the adjacency
      invariant and come out in ascending order. */
  lemma CreateTreeMatchesHeads(head: seq<int>, left: seq<seq<int>>, right: seq<seq<int>>)
    requires |left| == |head| && |right| == |head|
    requires forall p :: 0 <= p < |head| ==>
               left[p] == Dependents(head, p, |head|, true) && right[p] == Dependents(head, p, |head|, false)
    ensures ListsMatchHeads(head, left, right)
    ensures forall p :: 0 <= p < |head| ==> Ascending(left[p]) && Ascending(right[p])
  {
    forall p | 0 <= p < |head|
      ensures forall c :: (c in left[p] <==> 0 <= c < |head| && head[c] == p + 1 && c <= p)
      ensures forall c :: (c in right[p] <==> 0 <= c < |head| && head[c] == p + 1 && c > p)
      ensures Ascending(left[p]) && Ascending(right[p])
    {
      DependentsSpec(head, p, |head|, true);
      DependentsSpec(head, p, |head|, false);
    }
  }

  /** Every left entry of token p is at most p and every right entry is
      above p: the side `create_tree` files a child on. */
  ghost predicate Sided(a: Arcs)
  {
    && (forall p, j :: 0 <= p < |a.left| && 0 <= j < |a.left[p]| ==> a.left[p][j] <= p)
    && (forall p, j :: 0 <= p < |a.right| && 0 <= j < |a.right[p]| ==> a.right[p][j] > p)
  }

  /** Lists that match the heads are sided. */
  lemma MatchedListsSided(head: seq<int>, left: seq<seq<int>>, right: seq<seq<int>>)
    requires |left| == |head| && |right| == |head|
    requires ListsMatchHeads(head, left, right)
    ensures Sided(Arcs(head, left, right))
  {
    forall p, j | 0 <= p < |left| && 0 <= j < |left[p]| ensures left[p][j] <= p {
      assert left[p][j] in left[p];
    }
    forall p, j | 0 <= p < |right| && 0 <= j < |right[p]| ensures right[p][j] > p {
      assert right[p][j] in right[p];
    }
  }

  // ---- projectivity check ----

  function Lo(head: seq<int>, i: nat): int
    requires i < |head|
  {
    if head[i] < i + 1 then head[i] else i + 1
  }

  function Hi(head: seq<int>, i: nat): int
    requires i < |head|
  {
    if head[i] < i + 1 then i + 1 else head[i]
  }

  /** Token k (0-based) is scanned for the arc of token i and its head
      lies outside the closed id span of that arc. Arcs of length 1 are
      never scanned. */
  ghost predicate Crosses(head: seq<int>, i: nat, k: nat)
    requires i < |head| && k < |head|
  {
    && head[i] - (i + 1) != 1 && (i + 1) - head[i] != 1
    && Lo(head, i) <= k < Hi(head, i) - 1
    && (head[k] < Lo(head, i) || head[k] > Hi(head, i))
  }

  ghost predicate Projective(head: seq<int>)
  {
    forall i, k :: 0 <= i < |head| && 0 <= k < |head| ==> !Crosses(head, i, k)
  }

  /** Returns 1 when no arc is crossed and 0 otherwise; nothing changes. */
  method CheckProj(s: Sentence) returns (r: int)
    requires s.Valid()
    ensures r == 0 || r == 1
    ensures r == 1 <==> Projective(s.head)
  {
    var n := |s.tokens|;
    var i := 0;
    while i < n
      invariant 0 <= i <= n
      invariant forall i', k :: 0 <= i' < i && 0 <= k < n ==> !Crosses(s.head, i', k)
    {
      var headId := s.head[i];
      var childId := i + 1;
      // `c.mHead == 0` compares a string with an int and never holds
      if headId - childId != 1 && childId - headId != 1 {
        if headId > childId {
          var k := childId;
          while k < headId - 1
            invariant childId <= k <= headId - 1
            invariant forall k' :: childId <= k' < k ==> childId <= s.head[k'] <= headId
          {
            if s.head[k] < childId || s.head[k] > headId {
              assert Crosses(s.head, i, k);
              return 0;
            }
            k := k + 1;
          }
        } else {
          var k := headId;
          while k < childId - 1
            invariant headId <= k
            invariant k <= childId - 1 || k == headId
            invariant forall k' :: headId <= k' < k ==> headId <= s.head[k'] <= childId
          {
            if s.head[k] < headId || s.head[k] > childId {
              assert Crosses(s.head, i, k);
              return 0;
            }
            k := k + 1;
          }
        }
      }
      i := i + 1;
    }
    return 1;
  }
}
