/** Backward conversion: function-head back to content-head. A post-order
    walk that demotes a function word under the first (left side) or last
    (right side) non-"mwe" child in list order, after repairing the node's
    child lists for heads that deeper calls have already moved. */
module Backward {
  import opened Conll
  import opened Rules

  datatype Side = Left | Right

  function ListOf(a: Arcs, p: nat, side: Side): seq<int>
    requires p < |a.left| && p < |a.right|
  {
    if side == Left then a.left[p] else a.right[p]
  }

  /** The side of `top` on which token x lies: `top.mId < x.mId` means right. */
  function SideOf(top: int, x: int): Side
  {
    if top < x then Right else Left
  }

  /** The children in cs, in order, leaving out those labelled "mwe". */
  function NonMwe(tokens: seq<Token>, cs: seq<int>): (r: seq<int>)
    requires IndicesIn(cs, |tokens|)
    ensures IndicesIn(r, |tokens|) && |r| <= |cs|
    decreases |cs|
  {
    if cs == [] then []
    else (if tokens[cs[0]].deprel != "mwe" then [cs[0]] else []) + NonMwe(tokens, cs[1..])
  }

  lemma {:induction false} NonMweMembers(tokens: seq<Token>, cs: seq<int>)
    requires IndicesIn(cs, |tokens|)
    ensures forall x :: x in NonMwe(tokens, cs) <==> x in cs && tokens[x].deprel != "mwe"
    decreases |cs|
  {
    if cs != [] {
      NonMweMembers(tokens, cs[1..]);
      assert forall x :: x in cs <==> x == cs[0] || x in cs[1..] by {
        assert cs == [cs[0]] + cs[1..];
      }
    }
  }

  /** `list.remove(x)`: drops the first occurrence of x; the rest keep
      their order. */
  function RemoveFirst(xs: seq<int>, x: int): (r: seq<int>)
    requires x in xs
    ensures |r| == |xs| - 1
    ensures forall z :: z in r ==> z in xs
    decreases |xs|
  {
    if xs[0] == x then xs[1..] else [xs[0]] + RemoveFirst(xs[1..], x)
  }

  /** The removal cuts xs at the first occurrence i of x; what comes
      before and after it keeps its order. */
  lemma {:induction false} RemoveFirstShape(xs: seq<int>, x: int, i: nat)
    requires i < |xs| && xs[i] == x && x !in xs[..i]
    ensures RemoveFirst(xs, x) == xs[..i] + xs[i + 1..]
    decreases i
  {
    if i > 0 {
      assert xs[0] in xs[..i];
      assert xs[1..][..i - 1] == xs[1..i];
      RemoveFirstShape(xs[1..], x, i - 1);
      assert xs[..i] == [xs[0]] + xs[1..i];
      assert xs[i + 1..] == xs[1..][i..];
    }
  }

  /** Exactly one occurrence of x goes. */
  lemma {:induction false} RemoveFirstCount(xs: seq<int>, x: int)
    requires x in xs
    ensures multiset(RemoveFirst(xs, x)) + multiset{x} == multiset(xs)
    decreases |xs|
  {
    assert xs == [xs[0]] + xs[1..];
    if xs[0] != x {
      RemoveFirstCount(xs[1..], x);
    }
  }

  lemma RemoveIndicesIn(xs: seq<int>, x: int, n: int)
    requires IndicesIn(xs, n) && x in xs
    ensures IndicesIn(RemoveFirst(xs, x), n)
  {
    var r := RemoveFirst(xs, x);
    forall j | 0 <= j < |r| ensures 0 <= r[j] < n {
      assert r[j] in r;
      assert r[j] in xs;
    }
  }

  lemma ReplaceInRange(lists: seq<seq<int>>, n: int, p: int, l: seq<int>)
    requires EntriesInRange(lists, n) && 0 <= p < |lists| && IndicesIn(l, n)
    ensures EntriesInRange(lists[p := l], n)
  {
  }

  /** All entries of p's two child lists. */
  ghost function Slots(a: Arcs, p: nat): multiset<int>
    requires p < |a.left| && p < |a.right|
  {
    multiset(a.left[p]) + multiset(a.right[p])
  }

  /** Replaces p's list on `side` by l. */
  function WithList(a: Arcs, p: nat, side: Side, l: seq<int>): (r: Arcs)
    requires p < |a.left| && p < |a.right|
    ensures r.head == a.head && |r.left| == |a.left| && |r.right| == |a.right|
    ensures ListOf(r, p, side) == l
    ensures r.left == if side == Left then a.left[p := l] else a.left
    ensures r.right == if side == Right then a.right[p := l] else a.right
    ensures WellFormed(|a.head|, a) && IndicesIn(l, |a.head|) ==> WellFormed(|a.head|, r)
  {
    if side == Left then a.(left := a.left[p := l]) else a.(right := a.right[p := l])
  }

  lemma WithListSlots(a: Arcs, p: nat, side: Side, l: seq<int>)
    requires p < |a.left| && p < |a.right|
    ensures Slots(WithList(a, p, side, l), p) + multiset(ListOf(a, p, side)) == Slots(a, p) + multiset(l)
  {
  }

  /** `fixDependency(top, mid, buttom)`: moves the arc slot of `bottom` in
      top's lists over to `mid`. Fails when `bottom` is not in the list its
      position selects. Only top's lists change. */
  ghost function Fix(a: Arcs, top: nat, mid: nat, bottom: nat): (r: Result<Arcs>)
    requires WellFormed(|a.head|, a) && top < |a.head| && mid < |a.head| && bottom < |a.head|
    ensures r.Ok? ==> WellFormed(|a.head|, r.value) && r.value.head == a.head
  {
    var out := SideOf(top, bottom);
    var l := ListOf(a, top, out);
    if bottom !in l then Err(NotInList(top, bottom))
    else
      assert IndicesIn(l, |a.head|);
      RemoveIndicesIn(l, bottom, |a.head|);
      var removed := WithList(a, top, out, RemoveFirst(l, bottom));
      var into := SideOf(top, mid);
      assert IndicesIn(ListOf(removed, top, into) + [mid], |a.head|);
      var added := WithList(removed, top, into, ListOf(removed, top, into) + [mid]);
      Ok(added)
  }

  /** The fix fails exactly when `bottom` is missing from the list its
      position selects, and it never touches another token's lists. */
  lemma FixOutcome(a: Arcs, top: nat, mid: nat, bottom: nat)
    requires WellFormed(|a.head|, a) && top < |a.head| && mid < |a.head| && bottom < |a.head|
    ensures var r := Fix(a, top, mid, bottom);
            && (r.Ok? <==> bottom in ListOf(a, top, SideOf(top, bottom)))
            && (r.Err? ==> r.error == NotInList(top, bottom))
            && (r.Ok? ==> forall i :: 0 <= i < |a.head| && i != top ==>
                            r.value.left[i] == a.left[i] && r.value.right[i] == a.right[i])
  {
  }

  lemma MoveArithmetic(start: multiset<int>, removed: multiset<int>, added: multiset<int>,
                       l: multiset<int>, l1: multiset<int>, k: multiset<int>, l2: multiset<int>, b: int, m: int)
    requires removed + l == start + l1 && l1 + multiset{b} == l
    requires added + k == removed + l2 && l2 == k + multiset{m}
    ensures added + multiset{b} == start + multiset{m}
  {
    forall x ensures (added + multiset{b})[x] == (start + multiset{m})[x] {
      assert (removed + l)[x] == (start + l1)[x];
      assert (l1 + multiset{b})[x] == l[x];
      assert (added + k)[x] == (removed + l2)[x];
      assert l2[x] == (k + multiset{m})[x];
    }
  }

  /** A successful fix takes `bottom` out of top's lists and puts `mid`
      at the end of the list on mid's side. */
  lemma FixMovesSlot(a: Arcs, top: nat, mid: nat, bottom: nat)
    requires WellFormed(|a.head|, a) && top < |a.head| && mid < |a.head| && bottom < |a.head|
    requires Fix(a, top, mid, bottom).Ok?
    ensures Slots(Fix(a, top, mid, bottom).value, top) + multiset{bottom} == Slots(a, top) + multiset{mid}
    ensures var l := ListOf(Fix(a, top, mid, bottom).value, top, SideOf(top, mid)); |l| > 0 && l[|l| - 1] == mid
  {
    var out, into := SideOf(top, bottom), SideOf(top, mid);
    var l := ListOf(a, top, out);
    var l1 := RemoveFirst(l, bottom);
    RemoveFirstCount(l, bottom);
    var removed := WithList(a, top, out, l1);
    var l2 := ListOf(removed, top, into) + [mid];
    var added := WithList(removed, top, into, l2);
    assert Fix(a, top, mid, bottom).value == added;
    WithListSlots(a, top, out, l1);
    WithListSlots(removed, top, into, l2);
    assert multiset(l2) == multiset(ListOf(removed, top, into)) + multiset{mid};
    MoveArithmetic(Slots(a, top), Slots(removed, top), Slots(added, top),
                   multiset(l), multiset(l1), multiset(ListOf(removed, top, into)), multiset(l2), bottom, mid);
  }

  method FixDependency(s: Sentence, top: nat, mid: nat, bottom: nat) returns (st: Status)
    requires s.Valid() && top < |s.tokens| && mid < |s.tokens| && bottom < |s.tokens|
    modifies s`leftChild, s`rightChild
    ensures var res := Fix(old(s.State()), top, mid, bottom);
            && (res.Ok? ==> st == Done && s.State() == res.value)
            && (res.Err? ==> st == Failed(res.error) && s.State() == old(s.State()))
    ensures s.Valid()
  {
    var n := |s.tokens|;
    FixOutcome(s.State(), top, mid, bottom);
    if SideOf(top, bottom) == Right {
      if bottom !in s.rightChild[top] {
        return Failed(NotInList(top, bottom));
      }
      RemoveIndicesIn(s.rightChild[top], bottom, n);
      ReplaceInRange(s.rightChild, n, top, RemoveFirst(s.rightChild[top], bottom));
      s.rightChild := s.rightChild[top := RemoveFirst(s.rightChild[top], bottom)];
    } else {
      if bottom !in s.leftChild[top] {
        return Failed(NotInList(top, bottom));
      }
      RemoveIndicesIn(s.leftChild[top], bottom, n);
      ReplaceInRange(s.leftChild, n, top, RemoveFirst(s.leftChild[top], bottom));
      s.leftChild := s.leftChild[top := RemoveFirst(s.leftChild[top], bottom)];
    }
    if SideOf(top, mid) == Right {
      ReplaceInRange(s.rightChild, n, top, s.rightChild[top] + [mid]);
      s.rightChild := s.rightChild[top := s.rightChild[top] + [mid]];
    } else {
      ReplaceInRange(s.leftChild, n, top, s.leftChild[top] + [mid]);
      s.leftChild := s.leftChild[top := s.leftChild[top] + [mid]];
    }
    return Done;
  }

  /** The token `sentence[int(c.mHead) - 1]`; a head of 0 selects index -1,
      which Python reads as the last token. */
  function HeadIndex(head: seq<int>, c: nat): (m: nat)
    requires HeadsInRange(head) && c < |head|
    ensures m < |head|
    ensures head[c] != 0 ==> m + 1 == head[c]
  {
    if head[c] == 0 then |head| - 1 else head[c] - 1
  }

  /** The candidates whose head is no longer p. */
  ghost function Stale(head: seq<int>, cs: seq<int>, p: nat): (r: seq<int>)
    requires IndicesIn(cs, |head|)
    ensures IndicesIn(r, |head|)
    decreases |cs|
  {
    if cs == [] then []
    else (if head[cs[0]] != p + 1 then [cs[0]] else []) + Stale(head, cs[1..], p)
  }

  /** The current head tokens of the given candidates. */
  ghost function HeadTokens(head: seq<int>, cs: seq<int>): seq<int>
    requires HeadsInRange(head) && IndicesIn(cs, |head|)
    decreases |cs|
  {
    if cs == [] then [] else [HeadIndex(head, cs[0])] + HeadTokens(head, cs[1..])
  }

  /** The loop of `modifyDependency` ("B" direction): fixes every candidate
      whose head is no longer p. Heads never change; only p's lists do, and
      every stale candidate leaves p's lists as its head token joins them. */
  ghost function Repair(a: Arcs, cs: seq<int>, p: nat): (r: Result<Arcs>)
    requires WellFormed(|a.head|, a) && p < |a.head| && IndicesIn(cs, |a.head|)
    ensures r.Ok? ==> WellFormed(|a.head|, r.value)
    decreases |cs|
  {
    if cs == [] then Ok(a)
    else
      var a1 :- if a.head[cs[0]] != p + 1 then Fix(a, p, HeadIndex(a.head, cs[0]), cs[0]) else Ok(a);
      Repair(a1, cs[1..], p)
  }

  /** Repair changes no head and no list but p's. */
  lemma {:induction false} RepairFrame(a: Arcs, cs: seq<int>, p: nat)
    requires WellFormed(|a.head|, a) && p < |a.head| && IndicesIn(cs, |a.head|)
    requires Repair(a, cs, p).Ok?
    ensures Repair(a, cs, p).value.head == a.head
    ensures forall i :: 0 <= i < |a.head| && i != p ==>
              Repair(a, cs, p).value.left[i] == a.left[i] && Repair(a, cs, p).value.right[i] == a.right[i]
    decreases |cs|
  {
    if cs != [] {
      var c := cs[0];
      if a.head[c] != p + 1 {
        FixOutcome(a, p, HeadIndex(a.head, c), c);
        RepairFrame(Fix(a, p, HeadIndex(a.head, c), c).value, cs[1..], p);
      } else {
        RepairFrame(a, cs[1..], p);
      }
    }
  }

  lemma SlotArithmetic(fin: multiset<int>, mid: multiset<int>, start: multiset<int>,
                       st: seq<int>, ht: seq<int>, c: int, m: int)
    requires mid + multiset{c} == start + multiset{m}
    requires fin + multiset(st) == mid + multiset(ht)
    ensures fin + multiset([c] + st) == start + multiset([m] + ht)
  {
    calc {
      fin + multiset([c] + st);
      { assert multiset([c] + st) == multiset{c} + multiset(st); }
      (fin + multiset(st)) + multiset{c};
      (mid + multiset(ht)) + multiset{c};
      (mid + multiset{c}) + multiset(ht);
      (start + multiset{m}) + multiset(ht);
      { assert multiset([m] + ht) == multiset{m} + multiset(ht); }
      start + multiset([m] + ht);
    }
  }

  /** Every stale candidate leaves p's lists and its head token joins
      them; nothing else enters or leaves. */
  lemma {:induction false} RepairSlots(a: Arcs, cs: seq<int>, p: nat)
    requires WellFormed(|a.head|, a) && p < |a.head| && IndicesIn(cs, |a.head|)
    requires Repair(a, cs, p).Ok?
    ensures Slots(Repair(a, cs, p).value, p) + multiset(Stale(a.head, cs, p))
            == Slots(a, p) + multiset(HeadTokens(a.head, Stale(a.head, cs, p)))
    decreases |cs|
  {
    if cs != [] {
      var c := cs[0];
      if a.head[c] != p + 1 {
        var m := HeadIndex(a.head, c);
        FixMovesSlot(a, p, m, c);
        var a1 := Fix(a, p, m, c).value;
        RepairSlots(a1, cs[1..], p);
        var fin := Repair(a1, cs[1..], p).value;
        assert Repair(a, cs, p).value == fin;
        var st := Stale(a.head, cs[1..], p);
        var ht := HeadTokens(a.head, st);
        assert Stale(a.head, cs, p) == [c] + st;
        assert HeadTokens(a.head, [c] + st) == [m] + ht;
        SlotArithmetic(Slots(fin, p), Slots(a1, p), Slots(a, p), st, ht, c, m);
      } else {
        RepairSlots(a, cs[1..], p);
        assert Repair(a, cs, p) == Repair(a, cs[1..], p);
        assert Stale(a.head, cs, p) == Stale(a.head, cs[1..], p);
      }
    } else {
      assert Stale(a.head, cs, p) == [];
    }
  }

  /** When every candidate still hangs under p, repair changes nothing. */
  lemma {:induction false} RepairNoStale(a: Arcs, cs: seq<int>, p: nat)
    requires WellFormed(|a.head|, a) && p < |a.head| && IndicesIn(cs, |a.head|)
    requires forall j :: 0 <= j < |cs| ==> a.head[cs[j]] == p + 1
    ensures Repair(a, cs, p) == Ok(a)
    decreases |cs|
  {
    if cs != [] {
      RepairNoStale(a, cs[1..], p);
    }
  }

  /** Sided lists stay sided when one list is replaced by entries that
      lie on its side. */
  lemma WithListSided(a: Arcs, p: nat, side: Side, l: seq<int>)
    requires p < |a.left| && p < |a.right| && Sided(a)
    requires forall j :: 0 <= j < |l| ==> SideOf(p, l[j]) == side
    ensures Sided(WithList(a, p, side, l))
  {
    var r := WithList(a, p, side, l);
    forall q, j | 0 <= q < |r.left| && 0 <= j < |r.left[q]| ensures r.left[q][j] <= q {
      if side == Left && q == p {
        assert SideOf(p, l[j]) == Left;
      } else {
        assert r.left[q] == a.left[q];
      }
    }
    forall q, j | 0 <= q < |r.right| && 0 <= j < |r.right[q]| ensures r.right[q][j] > q {
      if side == Right && q == p {
        assert SideOf(p, l[j]) == Right;
      } else {
        assert r.right[q] == a.right[q];
      }
    }
  }

  lemma SidedList(a: Arcs, p: nat, side: Side)
    requires p < |a.left| && p < |a.right| && Sided(a)
    ensures forall j :: 0 <= j < |ListOf(a, p, side)| ==> SideOf(p, ListOf(a, p, side)[j]) == side
  {
  }

  /** A fix keeps the lists sided: the removal only drops an entry and
      `mid` joins the list its position selects. */
  lemma FixSided(a: Arcs, top: nat, mid: nat, bottom: nat)
    requires WellFormed(|a.head|, a) && top < |a.head| && mid < |a.head| && bottom < |a.head|
    requires Sided(a) && Fix(a, top, mid, bottom).Ok?
    ensures Sided(Fix(a, top, mid, bottom).value)
  {
    var out, into := SideOf(top, bottom), SideOf(top, mid);
    var l := ListOf(a, top, out);
    var l1 := RemoveFirst(l, bottom);
    SidedList(a, top, out);
    RemoveOnSide(l, bottom, top, out);
    WithListSided(a, top, out, l1);
    var removed := WithList(a, top, out, l1);
    var l2 := ListOf(removed, top, into) + [mid];
    SidedList(removed, top, into);
    WithListSided(removed, top, into, l2);
    assert Fix(a, top, mid, bottom).value == WithList(removed, top, into, l2);
  }

  lemma RemoveOnSide(l: seq<int>, x: int, top: int, side: Side)
    requires x in l && forall j :: 0 <= j < |l| ==> SideOf(top, l[j]) == side
    ensures forall j :: 0 <= j < |RemoveFirst(l, x)| ==> SideOf(top, RemoveFirst(l, x)[j]) == side
  {
    var l1 := RemoveFirst(l, x);
    forall j | 0 <= j < |l1| ensures SideOf(top, l1[j]) == side {
      assert l1[j] in l1;
      var i :| 0 <= i < |l| && l[i] == l1[j];
    }
  }

  /** The multiset of an `NonMwe` filter is contained in that of its list. */
  lemma {:induction false} NonMweSub(tokens: seq<Token>, cs: seq<int>)
    requires IndicesIn(cs, |tokens|)
    ensures multiset(NonMwe(tokens, cs)) <= multiset(cs)
    decreases |cs|
  {
    if cs != [] {
      NonMweSub(tokens, cs[1..]);
      assert cs == [cs[0]] + cs[1..];
    }
  }

  /** A fix that removes `bottom` from p's list on `side` leaves the rest
      of that list in it. */
  lemma FixKeepsRest(a: Arcs, top: nat, mid: nat, bottom: nat, side: Side)
    requires WellFormed(|a.head|, a) && top < |a.head| && mid < |a.head| && bottom < |a.head|
    requires SideOf(top, bottom) == side && bottom in ListOf(a, top, side)
    ensures Fix(a, top, mid, bottom).Ok?
    ensures multiset(ListOf(a, top, side)) <= multiset(ListOf(Fix(a, top, mid, bottom).value, top, side)) + multiset{bottom}
  {
    var l := ListOf(a, top, side);
    var l1 := RemoveFirst(l, bottom);
    RemoveFirstCount(l, bottom);
    var removed := WithList(a, top, side, l1);
    var into := SideOf(top, mid);
    var a1 := WithList(removed, top, into, ListOf(removed, top, into) + [mid]);
    assert Fix(a, top, mid, bottom) == Ok(a1);
    if into == side {
      assert ListOf(a1, top, side) == l1 + [mid];
    } else {
      assert ListOf(a1, top, side) == l1;
    }
  }

  lemma MultisetStep(rest: multiset<int>, l: multiset<int>, l1: multiset<int>, c: int)
    requires rest + multiset{c} <= l && l <= l1 + multiset{c}
    ensures rest <= l1
  {
    forall x ensures rest[x] <= l1[x] {
      assert (rest + multiset{c})[x] <= l[x] <= (l1 + multiset{c})[x];
    }
  }

  /** The fix for a stale first candidate succeeds and leaves the other
      candidates in p's list on `side`. */
  lemma StaleFixOk(a: Arcs, cs: seq<int>, p: nat, side: Side)
    requires WellFormed(|a.head|, a) && p < |a.head| && IndicesIn(cs, |a.head|)
    requires Sided(a) && multiset(cs) <= multiset(ListOf(a, p, side))
    requires cs != [] && a.head[cs[0]] != p + 1
    ensures var r := Fix(a, p, HeadIndex(a.head, cs[0]), cs[0]);
            r.Ok? && Sided(r.value) && multiset(cs[1..]) <= multiset(ListOf(r.value, p, side))
  {
    var c := cs[0];
    assert cs == [c] + cs[1..];
    var m := HeadIndex(a.head, c);
    var l := ListOf(a, p, side);
    assert c in multiset(l);
    var j :| 0 <= j < |l| && l[j] == c;
    SidedList(a, p, side);
    FixKeepsRest(a, p, m, c, side);
    FixSided(a, p, m, c);
    MultisetStep(multiset(cs[1..]), multiset(l), multiset(ListOf(Fix(a, p, m, c).value, p, side)), c);
  }

  /** The repair never hits a missing child when the lists are sided and
      the candidates come from p's list on one side: each stale candidate
      is still in that list when its turn comes, so `remove` succeeds. */
  lemma {:induction false} RepairOk(a: Arcs, cs: seq<int>, p: nat, side: Side)
    requires WellFormed(|a.head|, a) && p < |a.head| && IndicesIn(cs, |a.head|)
    requires Sided(a) && multiset(cs) <= multiset(ListOf(a, p, side))
    ensures Repair(a, cs, p).Ok? && Sided(Repair(a, cs, p).value)
    decreases |cs|
  {
    if cs != [] {
      if a.head[cs[0]] != p + 1 {
        StaleFixOk(a, cs, p, side);
        RepairOk(Fix(a, p, HeadIndex(a.head, cs[0]), cs[0]).value, cs[1..], p, side);
      } else {
        assert cs == [cs[0]] + cs[1..];
        assert multiset(cs[1..]) <= multiset(cs);
        RepairOk(a, cs[1..], p, side);
      }
    }
  }

  /** `modifyDependency(children, parent, sentence, "B", side)`: the repair
      loop, then p's current list on `side` without its "mwe" children. */
  method ModifyDependency(s: Sentence, children: seq<int>, p: nat, side: Side) returns (st: Status, cands: seq<int>)
    requires s.Valid() && p < |s.tokens| && IndicesIn(children, |s.tokens|)
    modifies s`leftChild, s`rightChild
    ensures var res := Repair(old(s.State()), children, p);
            && (res.Ok? ==> st == Done && s.State() == res.value)
            && (res.Err? ==> st == Failed(res.error))
    ensures s.Valid()
    ensures st == Done ==> cands == NonMwe(s.tokens, ListOf(s.State(), p, side))
  {
    var k := 0;
    while k < |children|
      invariant 0 <= k <= |children|
      invariant s.Valid() && s.head == old(s.head)
      invariant Repair(old(s.State()), children, p) == Repair(s.State(), children[k..], p)
    {
      assert children[k..][1..] == children[k + 1..];
      var c := children[k];
      if s.head[c] != p + 1 {
        st := FixDependency(s, p, HeadIndex(s.head, c), c);
        if st.Failed? {
          return st, [];
        }
      }
      k := k + 1;
    }
    st := Done;
    cands := NonMwe(s.tokens, ListOf(s.State(), p, side));
  }

  /** Gives every token in cs the head value v, one after the other. */
  function Reattach(h: seq<int>, cs: seq<int>, v: int): (r: seq<int>)
    requires IndicesIn(cs, |h|)
    ensures |r| == |h|
    ensures HeadsInRange(h) && 0 <= v <= |h| ==> HeadsInRange(r)
    decreases |cs|
  {
    if cs == [] then h else Reattach(h[cs[0] := v], cs[1..], v)
  }

  /** Exactly the tokens in cs end up with head v; the rest keep theirs. */
  lemma {:induction false} ReattachSpec(h: seq<int>, cs: seq<int>, v: int)
    requires IndicesIn(cs, |h|)
    ensures forall i :: 0 <= i < |h| ==> Reattach(h, cs, v)[i] == if i in cs then v else h[i]
    decreases |cs|
  {
    if cs != [] {
      ReattachSpec(h[cs[0] := v], cs[1..], v);
      assert forall i :: i in cs <==> i == cs[0] || i in cs[1..] by {
        assert cs == [cs[0]] + cs[1..];
      }
    }
  }

  /** The heads after `change_dep_backward(children, p, top)`: every child
      takes p's head, then p hangs under `top`. */
  function Demoted(h: seq<int>, children: seq<int>, p: nat, top: nat): (r: seq<int>)
    requires p < |h| && top < |h| && IndicesIn(children, |h|)
    ensures |r| == |h|
    ensures HeadsInRange(h) ==> HeadsInRange(r)
  {
    Reattach(h, children, h[p])[p := top + 1]
  }

  method ChangeDepBackward(s: Sentence, children: seq<int>, p: nat, top: nat)
    requires s.Valid() && p < |s.tokens| && top < |s.tokens| && IndicesIn(children, |s.tokens|)
    modifies s`head
    ensures s.Valid()
    ensures s.head == Demoted(old(s.head), children, p, top)
  {
    ghost var v := s.head[p];
    var k := 0;
    while k < |children|
      invariant 0 <= k <= |children|
      invariant s.Valid() && s.head[p] == v
      invariant Reattach(s.head, children[k..], v) == Reattach(old(s.head), children, v)
    {
      assert children[k..][1..] == children[k + 1..];
      s.head := s.head[children[k] := s.head[p]];
      k := k + 1;
    }
    s.head := s.head[p := top + 1];
  }

  /** The candidate that becomes the function word's new head: `lc[0]`
      on the left, `rc[-1]` on the right. */
  function NewHead(cands: seq<int>, side: Side): (t: int)
    requires |cands| > 0
    ensures t in cands
  {
    if side == Left then cands[0] else cands[|cands| - 1]
  }

  /** The arcs after `convert_backward(p)`, or the failure it raises. Each
      recursive call and each step over a child list spends one unit of
      fuel. */
  ghost function BackwardNode(tokens: seq<Token>, a: Arcs, p: nat, fuel: nat): (r: Result<Arcs>)
    requires |tokens| == |a.head| && WellFormed(|a.head|, a) && p < |a.head|
    ensures r.Ok? ==> WellFormed(|a.head|, r.value)
    decreases fuel, 3
  {
    if fuel == 0 then Err(OutOfFuel) else BothSides(tokens, a, p, fuel - 1)
  }

  /** The left half of `convert_backward(p)`, then the right half. */
  ghost function BothSides(tokens: seq<Token>, a: Arcs, p: nat, fuel: nat): (r: Result<Arcs>)
    requires |tokens| == |a.head| && WellFormed(|a.head|, a) && p < |a.head|
    ensures r.Ok? ==> WellFormed(|a.head|, r.value)
    decreases fuel, 2
  {
    var a1 :- BackwardSide(tokens, a, p, Left, fuel);
    BackwardSide(tokens, a1, p, Right, fuel)
  }

  /** One side of `convert_backward(p)`: convert the children on that side,
      repair p's lists, then demote p under the chosen candidate when p is a
      function word and some non-"mwe" candidate is left. */
  ghost function BackwardSide(tokens: seq<Token>, a: Arcs, p: nat, side: Side, fuel: nat): (r: Result<Arcs>)
    requires |tokens| == |a.head| && WellFormed(|a.head|, a) && p < |a.head|
    ensures r.Ok? ==> WellFormed(|a.head|, r.value)
    decreases fuel, 1
  {
    var a1 :- BackwardChildren(tokens, a, p, side, 0, fuel);
    var a2 :- Repair(a1, NonMwe(tokens, ListOf(a1, p, side)), p);
    var cands := NonMwe(tokens, ListOf(a2, p, side));
    Ok(if IsFunctionWord(tokens[p]) && |cands| > 0
       then a2.(head := Demoted(a2.head, cands, p, NewHead(cands, side)))
       else a2)
  }

  /** Converts the children of p on `side` from position k on, reading the
      list afresh at every step as Python's list iterator does. */
  ghost function BackwardChildren(tokens: seq<Token>, a: Arcs, p: nat, side: Side, k: nat, fuel: nat): (r: Result<Arcs>)
    requires |tokens| == |a.head| && WellFormed(|a.head|, a) && p < |a.head|
    ensures r.Ok? ==> WellFormed(|a.head|, r.value)
    decreases fuel, 0
  {
    if k >= |ListOf(a, p, side)| then Ok(a)
    else if fuel == 0 then Err(OutOfFuel)
    else
      var a1 :- BackwardNode(tokens, a, ListOf(a, p, side)[k], fuel - 1);
      BackwardChildren(tokens, a1, p, side, k + 1, fuel - 1)
  }

  method ConvertBackward(s: Sentence, p: nat, fuel: nat) returns (st: Status)
    requires s.Valid() && p < |s.tokens|
    modifies s`head, s`leftChild, s`rightChild
    ensures s.Valid()
    ensures Outcome(st, s.State()) == BackwardNode(s.tokens, old(s.State()), p, fuel)
    decreases fuel, 4
  {
    if fuel == 0 {
      return Failed(OutOfFuel);
    }
    st := ConvertSide(s, p, Left, fuel - 1);
    if st.Done? {
      st := ConvertSide(s, p, Right, fuel - 1);
    }
  }

  /** Lines of `convert_backward` for one side: the recursive calls over
      the child list, `modifyDependency`, and `change_dep_backward`. */
  method ConvertSide(s: Sentence, p: nat, side: Side, fuel: nat) returns (st: Status)
    requires s.Valid() && p < |s.tokens|
    modifies s`head, s`leftChild, s`rightChild
    ensures s.Valid()
    ensures Outcome(st, s.State()) == BackwardSide(s.tokens, old(s.State()), p, side, fuel)
    decreases fuel, 2
  {
    st := ConvertChildren(s, p, side, fuel);
    if st.Failed? {
      return;
    }
    var cands := NonMwe(s.tokens, ListOf(s.State(), p, side));
    st, cands := ModifyDependency(s, cands, p, side);
    if st.Failed? {
      return;
    }
    if IsFunctionWord(s.tokens[p]) && |cands| > 0 {
      ChangeDepBackward(s, cands, p, NewHead(cands, side));
    }
  }

  /** The `for c in lc` (or `rc`) loop: converts each child in turn. The
      list is read afresh at every step, since the recursive call may have
      changed it. */
  method ConvertChildren(s: Sentence, p: nat, side: Side, fuel: nat) returns (st: Status)
    requires s.Valid() && p < |s.tokens|
    modifies s`head, s`leftChild, s`rightChild
    ensures s.Valid()
    ensures Outcome(st, s.State()) == BackwardChildren(s.tokens, old(s.State()), p, side, 0, fuel)
    decreases fuel, 1
  {
    ghost var goal := BackwardChildren(s.tokens, s.State(), p, side, 0, fuel);
    var k, f: nat := 0, fuel;
    while k < |ListOf(s.State(), p, side)|
      invariant s.Valid()
      invariant f <= fuel
      invariant BackwardChildren(s.tokens, s.State(), p, side, k, f) == goal
      decreases f
    {
      if f == 0 {
        return Failed(OutOfFuel);
      }
      st := ConvertChild(s, p, side, k, f);
      if st.Failed? {
        return;
      }
      k, f := k + 1, f - 1;
    }
    return Done;
  }

  /** One iteration of the child loop: converts the k-th child on `side`. */
  method ConvertChild(s: Sentence, p: nat, side: Side, k: nat, fuel: nat) returns (st: Status)
    requires s.Valid() && p < |s.tokens| && k < |ListOf(s.State(), p, side)| && fuel > 0
    modifies s`head, s`leftChild, s`rightChild
    ensures s.Valid()
    ensures st.Failed? ==> BackwardChildren(s.tokens, old(s.State()), p, side, k, fuel) == Err(st.error)
    ensures st.Done? ==>
              BackwardChildren(s.tokens, old(s.State()), p, side, k, fuel)
              == BackwardChildren(s.tokens, s.State(), p, side, k + 1, fuel - 1)
    decreases fuel, 0
  {
    var c := ListOf(s.State(), p, side)[k];
    st := ConvertBackward(s, c, fuel - 1);
  }

  // ---- what backward conversion changes ----

  /** `change_dep_backward`: p hangs under `top`, every other child takes
      p's old head, and no other token moves. */
  lemma DemotedSpec(h: seq<int>, cs: seq<int>, p: nat, top: nat)
    requires p < |h| && top < |h| && IndicesIn(cs, |h|)
    ensures forall i :: 0 <= i < |h| ==>
              Demoted(h, cs, p, top)[i] == if i == p then top + 1 else if i in cs then h[p] else h[i]
  {
    ReattachSpec(h, cs, h[p]);
  }

  /** After its children are converted, one side of `convert_backward(p)`
      moves no head but p's and those of p's non-"mwe" children on that
      side, which all take p's head. Heads move only when p is a function
      word with a non-"mwe" candidate left after the repair; p then hangs
      under `lc[0]` on the left and `rc[-1]` on the right, and every other
      candidate takes p's head. */
  lemma SideEffects(tokens: seq<Token>, a: Arcs, p: nat, side: Side, fuel: nat)
    requires |tokens| == |a.head| && WellFormed(|a.head|, a) && p < |a.head|
    requires BackwardSide(tokens, a, p, side, fuel).Ok?
    ensures BackwardChildren(tokens, a, p, side, 0, fuel).Ok?
    ensures var a1 := BackwardChildren(tokens, a, p, side, 0, fuel).value;
            var r := BackwardSide(tokens, a, p, side, fuel).value;
            var cands := NonMwe(tokens, ListOf(r, p, side));
            && (!IsFunctionWord(tokens[p]) ==> r.head == a1.head)
            && (!(IsFunctionWord(tokens[p]) && |cands| > 0) ==> r.head == a1.head)
            && (IsFunctionWord(tokens[p]) && |cands| > 0 ==> r.head[p] == NewHead(cands, side) + 1)
            && (IsFunctionWord(tokens[p]) && |cands| > 0 ==>
                  forall i :: i in cands && i != p ==> r.head[i] == a1.head[p])
            && (forall i :: 0 <= i < |a.head| && r.head[i] != a1.head[i] ==>
                  i == p || (i in ListOf(r, p, side) && tokens[i].deprel != "mwe" && r.head[i] == a1.head[p]))
  {
    var a1 := BackwardChildren(tokens, a, p, side, 0, fuel).value;
    var cs := NonMwe(tokens, ListOf(a1, p, side));
    RepairFrame(a1, cs, p);
    var a2 := Repair(a1, cs, p).value;
    var cands := NonMwe(tokens, ListOf(a2, p, side));
    if IsFunctionWord(tokens[p]) && |cands| > 0 {
      NonMweMembers(tokens, ListOf(a2, p, side));
      DemotedSpec(a2.head, cands, p, NewHead(cands, side));
    }
  }

  /** Both lists of heads agree on every token labelled "mwe". */
  ghost predicate SameMweHeads(tokens: seq<Token>, h: seq<int>, h': seq<int>)
    requires |h| == |tokens| && |h'| == |tokens|
  {
    forall i :: 0 <= i < |tokens| && tokens[i].deprel == "mwe" ==> h'[i] == h[i]
  }

  /** Backward conversion never moves a token labelled "mwe". */
  lemma {:induction false} NodeKeepsMwe(tokens: seq<Token>, a: Arcs, p: nat, fuel: nat)
    requires |tokens| == |a.head| && WellFormed(|a.head|, a) && p < |a.head|
    requires BackwardNode(tokens, a, p, fuel).Ok?
    ensures SameMweHeads(tokens, a.head, BackwardNode(tokens, a, p, fuel).value.head)
    decreases fuel, 3
  {
    BothKeepMwe(tokens, a, p, fuel - 1);
  }

  lemma {:induction false} BothKeepMwe(tokens: seq<Token>, a: Arcs, p: nat, fuel: nat)
    requires |tokens| == |a.head| && WellFormed(|a.head|, a) && p < |a.head|
    requires BothSides(tokens, a, p, fuel).Ok?
    ensures SameMweHeads(tokens, a.head, BothSides(tokens, a, p, fuel).value.head)
    decreases fuel, 2
  {
    SideKeepsMwe(tokens, a, p, Left, fuel);
    var a1 := BackwardSide(tokens, a, p, Left, fuel).value;
    SideKeepsMwe(tokens, a1, p, Right, fuel);
  }

  lemma {:induction false} SideKeepsMwe(tokens: seq<Token>, a: Arcs, p: nat, side: Side, fuel: nat)
    requires |tokens| == |a.head| && WellFormed(|a.head|, a) && p < |a.head|
    requires BackwardSide(tokens, a, p, side, fuel).Ok?
    ensures SameMweHeads(tokens, a.head, BackwardSide(tokens, a, p, side, fuel).value.head)
    decreases fuel, 1
  {
    SideEffects(tokens, a, p, side, fuel);
    ChildrenKeepMwe(tokens, a, p, side, 0, fuel);
    FunctionWordRelations(tokens[p]);
  }

  lemma {:induction false} ChildrenKeepMwe(tokens: seq<Token>, a: Arcs, p: nat, side: Side, k: nat, fuel: nat)
    requires |tokens| == |a.head| && WellFormed(|a.head|, a) && p < |a.head|
    requires BackwardChildren(tokens, a, p, side, k, fuel).Ok?
    ensures SameMweHeads(tokens, a.head, BackwardChildren(tokens, a, p, side, k, fuel).value.head)
    decreases fuel, 0
  {
    if k < |ListOf(a, p, side)| {
      var c := ListOf(a, p, side)[k];
      NodeKeepsMwe(tokens, a, c, fuel - 1);
      var a1 := BackwardNode(tokens, a, c, fuel - 1).value;
      ChildrenKeepMwe(tokens, a1, p, side, k + 1, fuel - 1);
    }
  }

  // ---- backward conversion never misses a child ----

  /** On sided lists, as `create_tree` builds them, backward conversion
      keeps the lists sided and never runs into a `remove` of a missing
      child: its only failure is the model's fuel running out. */
  lemma {:induction false} NodeSided(tokens: seq<Token>, a: Arcs, p: nat, fuel: nat)
    requires |tokens| == |a.head| && WellFormed(|a.head|, a) && p < |a.head| && Sided(a)
    ensures var r := BackwardNode(tokens, a, p, fuel);
            && (r.Ok? ==> Sided(r.value))
            && (r.Err? ==> r.error == OutOfFuel)
    decreases fuel, 3
  {
    if fuel > 0 {
      BothSided(tokens, a, p, fuel - 1);
    }
  }

  lemma {:induction false} BothSided(tokens: seq<Token>, a: Arcs, p: nat, fuel: nat)
    requires |tokens| == |a.head| && WellFormed(|a.head|, a) && p < |a.head| && Sided(a)
    ensures var r := BothSides(tokens, a, p, fuel);
            && (r.Ok? ==> Sided(r.value))
            && (r.Err? ==> r.error == OutOfFuel)
    decreases fuel, 2
  {
    SideSided(tokens, a, p, Left, fuel);
    var r1 := BackwardSide(tokens, a, p, Left, fuel);
    if r1.Ok? {
      SideSided(tokens, r1.value, p, Right, fuel);
    }
  }

  lemma {:induction false} SideSided(tokens: seq<Token>, a: Arcs, p: nat, side: Side, fuel: nat)
    requires |tokens| == |a.head| && WellFormed(|a.head|, a) && p < |a.head| && Sided(a)
    ensures var r := BackwardSide(tokens, a, p, side, fuel);
            && (r.Ok? ==> Sided(r.value))
            && (r.Err? ==> r.error == OutOfFuel)
    decreases fuel, 1
  {
    ChildrenSided(tokens, a, p, side, 0, fuel);
    var r1 := BackwardChildren(tokens, a, p, side, 0, fuel);
    if r1.Ok? {
      var a1 := r1.value;
      var cs := NonMwe(tokens, ListOf(a1, p, side));
      NonMweSub(tokens, ListOf(a1, p, side));
      RepairOk(a1, cs, p, side);
    }
  }

  lemma {:induction false} ChildrenSided(tokens: seq<Token>, a: Arcs, p: nat, side: Side, k: nat, fuel: nat)
    requires |tokens| == |a.head| && WellFormed(|a.head|, a) && p < |a.head| && Sided(a)
    ensures var r := BackwardChildren(tokens, a, p, side, k, fuel);
            && (r.Ok? ==> Sided(r.value))
            && (r.Err? ==> r.error == OutOfFuel)
    decreases fuel, 0
  {
    if k < |ListOf(a, p, side)| && fuel > 0 {
      var c := ListOf(a, p, side)[k];
      NodeSided(tokens, a, c, fuel - 1);
      var r1 := BackwardNode(tokens, a, c, fuel - 1);
      if r1.Ok? {
        ChildrenSided(tokens, r1.value, p, side, k + 1, fuel - 1);
      }
    }
  }

  /** Started on the lists `create_tree` builds, backward conversion fails
      only for lack of fuel, never with a missing child. */
  lemma TreeNeverMissesChild(tokens: seq<Token>, a: Arcs, p: nat, fuel: nat)
    requires |tokens| == |a.head| && WellFormed(|a.head|, a) && p < |a.head|
    requires ListsMatchHeads(a.head, a.left, a.right)
    ensures BackwardNode(tokens, a, p, fuel).Err? ==> BackwardNode(tokens, a, p, fuel).error == OutOfFuel
  {
    MatchedListsSided(a.head, a.left, a.right);
    NodeSided(tokens, a, p, fuel);
  }
}
