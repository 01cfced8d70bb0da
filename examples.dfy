/** What the model gives on small worked sentences. */
module Examples {
  import opened Conll
  import opened Rules
  import opened Forward
  import opened Backward

  /** "lives in Tokyo": lives(VERB, root) <- Tokyo(PROPN, obl) <- in(ADP, case). */
  const Lives: seq<Token> := [Token("VERB", "root"), Token("ADP", "case"), Token("PROPN", "obl")]

  /** The child lists `create_tree` builds for the heads [0, 3, 1]. */
  lemma LivesTree()
    ensures Dependents([0, 3, 1], 0, 3, true) == [] && Dependents([0, 3, 1], 0, 3, false) == [2]
    ensures Dependents([0, 3, 1], 1, 3, true) == [] && Dependents([0, 3, 1], 1, 3, false) == []
    ensures Dependents([0, 3, 1], 2, 3, true) == [1] && Dependents([0, 3, 1], 2, 3, false) == []
  {
  }

  /** Forward conversion from the root makes "in" the head of "Tokyo" and
      hangs it under "lives". */
  lemma LivesForward()
    ensures ForwardHeads(Lives, [[], [], [1]], [[2], [], []], [2, 0, 1], [0, 3, 1], 0) == [0, 1, 2]
  {
  }

  /** The fragment "in Tokyo" on its own: Tokyo(PROPN, obl) has head 0 and
      in(ADP, case) hangs under it. After forward conversion "in" has head
      0 and Tokyo hangs to its right. */
  const InTokyo: seq<Token> := [Token("ADP", "case"), Token("PROPN", "obl")]
  const B0 := Arcs([0, 1], [[], []], [[1], []])
  const B1 := Arcs([2, 0], [[], []], [[1], []])

  lemma InTokyoFacts()
    ensures WellFormed(2, B0) && WellFormed(2, B1)
    ensures NonMwe(InTokyo, []) == [] && NonMwe(InTokyo, [1]) == [1]
    ensures IsFunctionWord(InTokyo[0])
  {
  }

  /** Tokyo has no children: converting it changes nothing. */
  lemma TokyoLeaf(fuel: nat)
    requires fuel >= 1
    ensures BackwardNode(InTokyo, B0, 1, fuel) == Ok(B0)
  {
    InTokyoFacts();
    assert BackwardChildren(InTokyo, B0, 1, Left, 0, fuel - 1) == Ok(B0);
    assert Repair(B0, [], 1) == Ok(B0);
    assert BackwardSide(InTokyo, B0, 1, Left, fuel - 1) == Ok(B0);
    assert BackwardChildren(InTokyo, B0, 1, Right, 0, fuel - 1) == Ok(B0);
    assert BackwardSide(InTokyo, B0, 1, Right, fuel - 1) == Ok(B0);
  }

  /** The function word is demoted: Tokyo takes over its head 0 and "in"
      hangs under Tokyo, giving back the heads [2, 0]. */
  lemma InTokyoBackward(fuel: nat)
    requires fuel >= 3
    ensures BackwardNode(InTokyo, B0, 0, fuel) == Ok(B1)
  {
    InTokyoFacts();
    TokyoLeaf(fuel - 2);
    assert BackwardChildren(InTokyo, B0, 0, Left, 0, fuel - 1) == Ok(B0);
    assert Repair(B0, [], 0) == Ok(B0);
    assert BackwardSide(InTokyo, B0, 0, Left, fuel - 1) == Ok(B0);
    assert BackwardChildren(InTokyo, B0, 0, Right, 1, fuel - 2) == Ok(B0);
    assert BackwardChildren(InTokyo, B0, 0, Right, 0, fuel - 1) == Ok(B0);
    assert Repair(B0, [], 0) == Ok(B0);
    assert Repair(B0, [1], 0) == Ok(B0);
    assert Demoted([0, 1], [1], 0, 1) == [2, 0];
    assert BackwardSide(InTokyo, B0, 0, Right, fuel - 1) == Ok(B1);
  }

  /** Read with its original heads [2, 0], "in Tokyo" gets the child lists
      below. */
  lemma InTokyoLists()
    ensures Dependents([2, 0], 1, 2, true) == [0] && Dependents([2, 0], 1, 2, false) == []
    ensures Dependents([2, 0], 0, 2, true) == [] && Dependents([2, 0], 0, 2, false) == []
  {
  }

  /** With those lists, forward conversion from Tokyo gives "in" Tokyo's
      head and hangs Tokyo under "in". */
  lemma InTokyoForward()
    ensures ForwardHeads(InTokyo, [[], [0]], [[], []], [0, 1], [2, 0], 1) == [0, 1]
  {
  }

  /** Rebuilt from the forward heads [0, 1], Tokyo sits in the right list
      of "in". */
  lemma InTokyoRebuilt()
    ensures Dependents([0, 1], 0, 2, false) == [1] && Dependents([0, 1], 0, 2, true) == []
    ensures Dependents([0, 1], 1, 2, false) == [] && Dependents([0, 1], 1, 2, true) == []
  {
  }

  /** When the head is labelled "root" the rotation is skipped, so a
      sentence made of "in Tokyo" alone keeps its heads. */
  lemma RootNotRotated()
    ensures ForwardHeads([Token("ADP", "case"), Token("PROPN", "root")],
                         [[], [0]], [[], []], [0, 1], [2, 0], 1) == [2, 0]
  {
  }

  /** Forward conversion, rebuilding the child lists, then backward
      conversion gives "in Tokyo" its original heads back. */
  lemma InTokyoRoundTrip(fuel: nat)
    requires fuel >= 3
    ensures var h := ForwardHeads(InTokyo, [[], [0]], [[], []], [0, 1], [2, 0], 1);
            var rebuilt := Arcs(h, [Dependents(h, 0, 2, true), Dependents(h, 1, 2, true)],
                                   [Dependents(h, 0, 2, false), Dependents(h, 1, 2, false)]);
            && WellFormed(2, rebuilt)
            && BackwardNode(InTokyo, rebuilt, 0, fuel).Ok?
            && BackwardNode(InTokyo, rebuilt, 0, fuel).value.head == [2, 0]
  {
    InTokyoForward();
    InTokyoRebuilt();
    InTokyoBackward(fuel);
  }

  /** In "lives in Tokyo", once "in" has been demoted under "Tokyo" the
      root's right list still names "in"; the fix replaces it by "Tokyo". */
  const A1 := Arcs([0, 3, 1], [[], [], []], [[1], [2], []])
  const A2 := Arcs([0, 3, 1], [[], [], []], [[2], [2], []])

  lemma A1Facts()
    ensures WellFormed(3, A1) && ListOf(A1, 0, Right) == [1] && RemoveFirst([1], 1) == []
  {
  }

  lemma LivesFix()
    ensures WellFormed(3, A1) && Fix(A1, 0, 2, 1) == Ok(A2)
  {
    A1Facts();
    var removed := Arcs([0, 3, 1], [[], [], []], [[], [2], []]);
    assert WithList(A1, 0, Right, []) == removed;
    assert ListOf(removed, 0, Right) + [2] == [2];
    assert WithList(removed, 0, Right, [2]) == A2;
  }

  lemma LivesRepair()
    ensures WellFormed(3, A1) && Repair(A1, [1], 0) == Ok(A2)
  {
    LivesFix();
    assert WellFormed(3, A2);
    assert HeadIndex(A1.head, 1) == 2;
    assert Repair(A2, [], 0) == Ok(A2);
  }
}
