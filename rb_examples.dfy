// The concrete shapes that timeseries/test_cs207rbtree_more.py pins for the
// red-black `set`, computed on the logical tree. Each `set` is one lemma
// that evaluates the insert and the `update` rounds; the longer fix-ups are
// split into one lemma per round of `update`.
module RbExamples {
  import opened Results
  import opened DbStorage
  import opened SearchTree
  import opened RbShape

  /** `db.set(k, k)` for each key of `keys` in turn, starting from `t`.
      The values play no part in where nodes end up. */
  function SetEach(t: Tree<int>, keys: seq<int>): (r: Tree<int>)
    requires Ordered(t)
    ensures Ordered(r)
    ensures forall k :: k in Keys(r) <==> k in Keys(t) || k in keys
    decreases |keys|
  {
    if keys == [] then t
    else
      SetFacts(t, keys[0], keys[0]);
      SetEach(SetT(t, keys[0], keys[0]), keys[1..])
  }

  /** The node holding `k` has a child holding `c` on side `side`. */
  predicate ChildOf(t: Tree<int>, k: int, c: int, side: Side)
  {
    var n := Find(t, k);
    n.T? && var s := if side == L then n.left else n.right; s.T? && s.key == c
  }

  /** `set(0, 0)`. */
  lemma OneBalancingStep1()
    ensures SetT(Empty, 0, 0) == T(Empty, 0, 0, Empty, Black)
  {
  }

  /** `set(1, 1)`. */
  lemma OneBalancingStep2()
    ensures SetT(T(Empty, 0, 0, Empty, Black), 1, 1) == T(Empty, 0, 0, T(Empty, 1, 1, Empty, Red), Black)
  {
  }

  /** `set(2, 2)`. */
  lemma OneBalancingStep3()
    ensures SetT(T(Empty, 0, 0, T(Empty, 1, 1, Empty, Red), Black), 2, 2) == T(T(Empty, 0, 0, Empty, Red), 1, 1, T(Empty, 2, 2, Empty, Red), Black)
  {
  }

  /** `set(3, 3)`. */
  lemma OneBalancingStep4()
    ensures SetT(T(T(Empty, 0, 0, Empty, Red), 1, 1, T(Empty, 2, 2, Empty, Red), Black), 3, 3) == T(T(Empty, 0, 0, Empty, Black), 1, 1, T(Empty, 2, 2, T(Empty, 3, 3, Empty, Red), Black), Black)
  {
  }

  /** `set(4, 4)`. */
  lemma OneBalancingStep5()
    ensures SetT(T(T(Empty, 0, 0, Empty, Black), 1, 1, T(Empty, 2, 2, T(Empty, 3, 3, Empty, Red), Black), Black), 4, 4) == T(T(Empty, 0, 0, Empty, Black), 1, 1, T(T(Empty, 2, 2, Empty, Red), 3, 3, T(Empty, 4, 4, Empty, Red), Black), Black)
  {
  }

  /** `set(5, 5)`. */
  lemma OneBalancingStep6()
    ensures SetT(T(T(Empty, 0, 0, Empty, Black), 1, 1, T(T(Empty, 2, 2, Empty, Red), 3, 3, T(Empty, 4, 4, Empty, Red), Black), Black), 5, 5) == T(T(Empty, 0, 0, Empty, Black), 1, 1, T(T(Empty, 2, 2, Empty, Black), 3, 3, T(Empty, 4, 4, T(Empty, 5, 5, Empty, Red), Black), Red), Black)
  {
  }

  /** `set(7, 7)`. */
  lemma TwoBalancingStep1()
    ensures SetT(Empty, 7, 7) == T(Empty, 7, 7, Empty, Black)
  {
  }

  /** `set(3, 3)`. */
  lemma TwoBalancingStep2()
    ensures SetT(T(Empty, 7, 7, Empty, Black), 3, 3) == T(T(Empty, 3, 3, Empty, Red), 7, 7, Empty, Black)
  {
  }

  /** `set(18, 18)`. */
  lemma TwoBalancingStep3()
    ensures SetT(T(T(Empty, 3, 3, Empty, Red), 7, 7, Empty, Black), 18, 18) == T(T(Empty, 3, 3, Empty, Red), 7, 7, T(Empty, 18, 18, Empty, Red), Black)
  {
  }

  /** `set(10, 10)`. */
  lemma TwoBalancingStep4()
    ensures SetT(T(T(Empty, 3, 3, Empty, Red), 7, 7, T(Empty, 18, 18, Empty, Red), Black), 10, 10) == T(T(Empty, 3, 3, Empty, Black), 7, 7, T(T(Empty, 10, 10, Empty, Red), 18, 18, Empty, Black), Black)
  {
  }

  /** `set(22, 22)`. */
  lemma TwoBalancingStep5()
    ensures SetT(T(T(Empty, 3, 3, Empty, Black), 7, 7, T(T(Empty, 10, 10, Empty, Red), 18, 18, Empty, Black), Black), 22, 22) == T(T(Empty, 3, 3, Empty, Black), 7, 7, T(T(Empty, 10, 10, Empty, Red), 18, 18, T(Empty, 22, 22, Empty, Red), Black), Black)
  {
  }

  /** `set(8, 8)`. */
  lemma TwoBalancingStep6()
    ensures SetT(T(T(Empty, 3, 3, Empty, Black), 7, 7, T(T(Empty, 10, 10, Empty, Red), 18, 18, T(Empty, 22, 22, Empty, Red), Black), Black), 8, 8) == T(T(Empty, 3, 3, Empty, Black), 7, 7, T(T(T(Empty, 8, 8, Empty, Red), 10, 10, Empty, Black), 18, 18, T(Empty, 22, 22, Empty, Black), Red), Black)
  {
  }

  /** `set(11, 11)`. */
  lemma TwoBalancingStep7()
    ensures SetT(T(T(Empty, 3, 3, Empty, Black), 7, 7, T(T(T(Empty, 8, 8, Empty, Red), 10, 10, Empty, Black), 18, 18, T(Empty, 22, 22, Empty, Black), Red), Black), 11, 11) == T(T(Empty, 3, 3, Empty, Black), 7, 7, T(T(T(Empty, 8, 8, Empty, Red), 10, 10, T(Empty, 11, 11, Empty, Red), Black), 18, 18, T(Empty, 22, 22, Empty, Black), Red), Black)
  {
  }

  /** `set(26, 26)`. */
  lemma TwoBalancingStep8()
    ensures SetT(T(T(Empty, 3, 3, Empty, Black), 7, 7, T(T(T(Empty, 8, 8, Empty, Red), 10, 10, T(Empty, 11, 11, Empty, Red), Black), 18, 18, T(Empty, 22, 22, Empty, Black), Red), Black), 26, 26) == T(T(Empty, 3, 3, Empty, Black), 7, 7, T(T(T(Empty, 8, 8, Empty, Red), 10, 10, T(Empty, 11, 11, Empty, Red), Black), 18, 18, T(Empty, 22, 22, T(Empty, 26, 26, Empty, Red), Black), Red), Black)
  {
  }

  lemma TwoBalancingStep9Up1()
    ensures UpdateT(T(T(Empty, 3, 3, Empty, Black), 7, 7, T(T(T(Empty, 8, 8, Empty, Red), 10, 10, T(Empty, 11, 11, T(Empty, 12, 12, Empty, Red), Red), Black), 18, 18, T(Empty, 22, 22, T(Empty, 26, 26, Empty, Red), Black), Red), Black), 12, 12) == UpdateT(T(T(Empty, 3, 3, Empty, Black), 7, 7, T(T(T(Empty, 8, 8, Empty, Red), 10, 10, T(Empty, 11, 11, T(Empty, 12, 12, Empty, Red), Red), Black), 18, 18, T(Empty, 22, 22, T(Empty, 26, 26, Empty, Red), Black), Red), Black), 12, 11)
  {
  }

  lemma TwoBalancingStep9Up2()
    ensures UpdateT(T(T(Empty, 3, 3, Empty, Black), 7, 7, T(T(T(Empty, 8, 8, Empty, Red), 10, 10, T(Empty, 11, 11, T(Empty, 12, 12, Empty, Red), Red), Black), 18, 18, T(Empty, 22, 22, T(Empty, 26, 26, Empty, Red), Black), Red), Black), 12, 11) == UpdateT(T(T(Empty, 3, 3, Empty, Black), 7, 7, T(T(T(Empty, 8, 8, Empty, Red), 10, 10, T(Empty, 11, 11, T(Empty, 12, 12, Empty, Red), Red), Black), 18, 18, T(Empty, 22, 22, T(Empty, 26, 26, Empty, Red), Black), Red), Black), 12, 10)
  {
  }

  lemma TwoBalancingStep9Up3()
    ensures UpdateT(T(T(Empty, 3, 3, Empty, Black), 7, 7, T(T(T(Empty, 8, 8, Empty, Red), 10, 10, T(Empty, 11, 11, T(Empty, 12, 12, Empty, Red), Red), Black), 18, 18, T(Empty, 22, 22, T(Empty, 26, 26, Empty, Red), Black), Red), Black), 12, 10) == UpdateT(T(T(Empty, 3, 3, Empty, Black), 7, 7, T(T(T(Empty, 8, 8, Empty, Black), 10, 10, T(Empty, 11, 11, T(Empty, 12, 12, Empty, Red), Black), Red), 18, 18, T(Empty, 22, 22, T(Empty, 26, 26, Empty, Red), Black), Red), Black), 12, 18)
  {
  }

  lemma TwoBalancingStep9Up4()
    ensures UpdateT(T(T(Empty, 3, 3, Empty, Black), 7, 7, T(T(T(Empty, 8, 8, Empty, Black), 10, 10, T(Empty, 11, 11, T(Empty, 12, 12, Empty, Red), Black), Red), 18, 18, T(Empty, 22, 22, T(Empty, 26, 26, Empty, Red), Black), Red), Black), 12, 18) == UpdateT(T(T(Empty, 3, 3, Empty, Black), 7, 7, T(T(T(Empty, 8, 8, Empty, Black), 10, 10, T(Empty, 11, 11, T(Empty, 12, 12, Empty, Red), Black), Red), 18, 18, T(Empty, 22, 22, T(Empty, 26, 26, Empty, Red), Black), Red), Black), 12, 7)
  {
  }

  lemma TwoBalancingStep9Top()
    ensures UpdateT(T(T(Empty, 3, 3, Empty, Black), 7, 7, T(T(T(Empty, 8, 8, Empty, Black), 10, 10, T(Empty, 11, 11, T(Empty, 12, 12, Empty, Red), Black), Red), 18, 18, T(Empty, 22, 22, T(Empty, 26, 26, Empty, Red), Black), Red), Black), 12, 7) == T(T(T(Empty, 3, 3, Empty, Black), 7, 7, T(Empty, 8, 8, Empty, Black), Red), 10, 10, T(T(Empty, 11, 11, T(Empty, 12, 12, Empty, Red), Black), 18, 18, T(Empty, 22, 22, T(Empty, 26, 26, Empty, Red), Black), Red), Black)
  {
  }

  /** `set(12, 12)`. */
  lemma TwoBalancingStep9()
    ensures SetT(T(T(Empty, 3, 3, Empty, Black), 7, 7, T(T(T(Empty, 8, 8, Empty, Red), 10, 10, T(Empty, 11, 11, Empty, Red), Black), 18, 18, T(Empty, 22, 22, T(Empty, 26, 26, Empty, Red), Black), Red), Black), 12, 12) == T(T(T(Empty, 3, 3, Empty, Black), 7, 7, T(Empty, 8, 8, Empty, Black), Red), 10, 10, T(T(Empty, 11, 11, T(Empty, 12, 12, Empty, Red), Black), 18, 18, T(Empty, 22, 22, T(Empty, 26, 26, Empty, Red), Black), Red), Black)
  {
    assert InsertT(T(T(Empty, 3, 3, Empty, Black), 7, 7, T(T(T(Empty, 8, 8, Empty, Red), 10, 10, T(Empty, 11, 11, Empty, Red), Black), 18, 18, T(Empty, 22, 22, T(Empty, 26, 26, Empty, Red), Black), Red), Black), 12, 12, Red) == T(T(Empty, 3, 3, Empty, Black), 7, 7, T(T(T(Empty, 8, 8, Empty, Red), 10, 10, T(Empty, 11, 11, T(Empty, 12, 12, Empty, Red), Red), Black), 18, 18, T(Empty, 22, 22, T(Empty, 26, 26, Empty, Red), Black), Red), Black);
    TwoBalancingStep9Up1(); TwoBalancingStep9Up2(); TwoBalancingStep9Up3(); TwoBalancingStep9Up4(); TwoBalancingStep9Top();
  }

  lemma AfterUpdateStep1Up1()
    ensures UpdateT(T(T(T(Empty, 3, 3, Empty, Black), 7, 7, T(Empty, 8, 8, Empty, Black), Red), 10, 10, T(T(Empty, 11, 11, T(Empty, 12, 12, Empty, Red), Black), 18, 18, T(Empty, 22, 22, T(Empty, 26, 26, T(Empty, 27, 27, Empty, Red), Red), Black), Red), Black), 27, 27) == UpdateT(T(T(T(Empty, 3, 3, Empty, Black), 7, 7, T(Empty, 8, 8, Empty, Black), Red), 10, 10, T(T(Empty, 11, 11, T(Empty, 12, 12, Empty, Red), Black), 18, 18, T(Empty, 22, 22, T(Empty, 26, 26, T(Empty, 27, 27, Empty, Red), Red), Black), Red), Black), 27, 26)
  {
  }

  lemma AfterUpdateStep1Up2()
    ensures UpdateT(T(T(T(Empty, 3, 3, Empty, Black), 7, 7, T(Empty, 8, 8, Empty, Black), Red), 10, 10, T(T(Empty, 11, 11, T(Empty, 12, 12, Empty, Red), Black), 18, 18, T(Empty, 22, 22, T(Empty, 26, 26, T(Empty, 27, 27, Empty, Red), Red), Black), Red), Black), 27, 26) == UpdateT(T(T(T(Empty, 3, 3, Empty, Black), 7, 7, T(Empty, 8, 8, Empty, Black), Red), 10, 10, T(T(Empty, 11, 11, T(Empty, 12, 12, Empty, Red), Black), 18, 18, T(Empty, 22, 22, T(Empty, 26, 26, T(Empty, 27, 27, Empty, Red), Red), Black), Red), Black), 27, 22)
  {
  }

  lemma AfterUpdateStep1Up3()
    ensures UpdateT(T(T(T(Empty, 3, 3, Empty, Black), 7, 7, T(Empty, 8, 8, Empty, Black), Red), 10, 10, T(T(Empty, 11, 11, T(Empty, 12, 12, Empty, Red), Black), 18, 18, T(Empty, 22, 22, T(Empty, 26, 26, T(Empty, 27, 27, Empty, Red), Red), Black), Red), Black), 27, 22) == UpdateT(T(T(T(Empty, 3, 3, Empty, Black), 7, 7, T(Empty, 8, 8, Empty, Black), Red), 10, 10, T(T(Empty, 11, 11, T(Empty, 12, 12, Empty, Red), Black), 18, 18, T(T(Empty, 22, 22, Empty, Red), 26, 26, T(Empty, 27, 27, Empty, Red), Black), Red), Black), 27, 18)
  {
  }

  lemma AfterUpdateStep1Up4()
    ensures UpdateT(T(T(T(Empty, 3, 3, Empty, Black), 7, 7, T(Empty, 8, 8, Empty, Black), Red), 10, 10, T(T(Empty, 11, 11, T(Empty, 12, 12, Empty, Red), Black), 18, 18, T(T(Empty, 22, 22, Empty, Red), 26, 26, T(Empty, 27, 27, Empty, Red), Black), Red), Black), 27, 18) == UpdateT(T(T(T(Empty, 3, 3, Empty, Black), 7, 7, T(Empty, 8, 8, Empty, Black), Red), 10, 10, T(T(Empty, 11, 11, T(Empty, 12, 12, Empty, Red), Black), 18, 18, T(T(Empty, 22, 22, Empty, Red), 26, 26, T(Empty, 27, 27, Empty, Red), Black), Red), Black), 27, 10)
  {
  }

  lemma AfterUpdateStep1Top()
    ensures UpdateT(T(T(T(Empty, 3, 3, Empty, Black), 7, 7, T(Empty, 8, 8, Empty, Black), Red), 10, 10, T(T(Empty, 11, 11, T(Empty, 12, 12, Empty, Red), Black), 18, 18, T(T(Empty, 22, 22, Empty, Red), 26, 26, T(Empty, 27, 27, Empty, Red), Black), Red), Black), 27, 10) == T(T(T(Empty, 3, 3, Empty, Black), 7, 7, T(Empty, 8, 8, Empty, Black), Red), 10, 10, T(T(Empty, 11, 11, T(Empty, 12, 12, Empty, Red), Black), 18, 18, T(T(Empty, 22, 22, Empty, Red), 26, 26, T(Empty, 27, 27, Empty, Red), Black), Red), Black)
  {
  }

  /** `set(27, 27)`. */
  lemma AfterUpdateStep1()
    ensures SetT(T(T(T(Empty, 3, 3, Empty, Black), 7, 7, T(Empty, 8, 8, Empty, Black), Red), 10, 10, T(T(Empty, 11, 11, T(Empty, 12, 12, Empty, Red), Black), 18, 18, T(Empty, 22, 22, T(Empty, 26, 26, Empty, Red), Black), Red), Black), 27, 27) == T(T(T(Empty, 3, 3, Empty, Black), 7, 7, T(Empty, 8, 8, Empty, Black), Red), 10, 10, T(T(Empty, 11, 11, T(Empty, 12, 12, Empty, Red), Black), 18, 18, T(T(Empty, 22, 22, Empty, Red), 26, 26, T(Empty, 27, 27, Empty, Red), Black), Red), Black)
  {
    assert InsertT(T(T(T(Empty, 3, 3, Empty, Black), 7, 7, T(Empty, 8, 8, Empty, Black), Red), 10, 10, T(T(Empty, 11, 11, T(Empty, 12, 12, Empty, Red), Black), 18, 18, T(Empty, 22, 22, T(Empty, 26, 26, Empty, Red), Black), Red), Black), 27, 27, Red) == T(T(T(Empty, 3, 3, Empty, Black), 7, 7, T(Empty, 8, 8, Empty, Black), Red), 10, 10, T(T(Empty, 11, 11, T(Empty, 12, 12, Empty, Red), Black), 18, 18, T(Empty, 22, 22, T(Empty, 26, 26, T(Empty, 27, 27, Empty, Red), Red), Black), Red), Black);
    AfterUpdateStep1Up1(); AfterUpdateStep1Up2(); AfterUpdateStep1Up3(); AfterUpdateStep1Up4(); AfterUpdateStep1Top();
  }

  /** The tree after setting 0, 1, 2, 3, 4, 5 in turn. */
  lemma OneBalancingTree()
    ensures SetEach(Empty, [0, 1, 2, 3, 4, 5]) == T(T(Empty, 0, 0, Empty, Black), 1, 1, T(T(Empty, 2, 2, Empty, Black), 3, 3, T(Empty, 4, 4, T(Empty, 5, 5, Empty, Red), Black), Red), Black)
  {
    OneBalancingStep1();
    OneBalancingStep2();
    OneBalancingStep3();
    OneBalancingStep4();
    OneBalancingStep5();
    OneBalancingStep6();
  }

  /** Setting 0, 1, 2, 3, 4, 5 in turn leaves 3 the right child of 1
      (test_one_balancing), where plain insertion would hang it under 2. */
  lemma OneBalancing()
    ensures ChildOf(SetEach(Empty, [0, 1, 2, 3, 4, 5]), 1, 3, R)
  {
    OneBalancingTree();
  }

  /** `delete(4)` on the tree `OneBalancingTree` gives. */
  lemma DeleteStep()
    ensures DeleteT(T(T(Empty, 0, 0, Empty, Black), 1, 1, T(T(Empty, 2, 2, Empty, Black), 3, 3, T(Empty, 4, 4, T(Empty, 5, 5, Empty, Red), Black), Red), Black), 4, Red) == Some(T(T(Empty, 0, 0, Empty, Black), 1, 1, T(T(Empty, 2, 2, Empty, Black), 3, 3, T(Empty, 5, 5, Empty, Red), Red), Black))
  {
  }

  /** Deleting 4 from that tree succeeds and hangs 5 where 4 was, as the
      right child of 3, with no rebalancing (test_delete). */
  lemma DeleteWithoutRebalancing()
    ensures var d := DeleteT(SetEach(Empty, [0, 1, 2, 3, 4, 5]), 4, Red);
      d.Some? && ChildOf(d.value, 3, 5, R)
  {
    OneBalancingTree();
    DeleteStep();
  }

  /** The tree after setting 7, 3, 18, 10, 22, 8, 11, 26, 12 in turn. */
  lemma TwoBalancingTree()
    ensures SetEach(Empty, [7, 3, 18, 10, 22, 8, 11, 26, 12]) == T(T(T(Empty, 3, 3, Empty, Black), 7, 7, T(Empty, 8, 8, Empty, Black), Red), 10, 10, T(T(Empty, 11, 11, T(Empty, 12, 12, Empty, Red), Black), 18, 18, T(Empty, 22, 22, T(Empty, 26, 26, Empty, Red), Black), Red), Black)
  {
    TwoBalancingStep1();
    TwoBalancingStep2();
    TwoBalancingStep3();
    TwoBalancingStep4();
    TwoBalancingStep5();
    TwoBalancingStep6();
    TwoBalancingStep7();
    TwoBalancingStep8();
    TwoBalancingStep9();
  }

  /** Setting 7, 3, 18, 10, 22, 8, 11, 26, 12 in turn leaves 10 at the head
      with 7 on its left and 18 on its right (test_two_balancing). */
  lemma TwoBalancing()
    ensures var t := SetEach(Empty, [7, 3, 18, 10, 22, 8, 11, 26, 12]);
      ChildOf(t, 10, 7, L) && ChildOf(t, 10, 18, R)
  {
    TwoBalancingTree();
  }

  /** Setting 27 on that tree makes 22 the left child of 26 and 26 the right
      child of 18 (test_balance_after_update). */
  lemma BalanceAfterUpdate()
    ensures var t := SetEach(SetEach(Empty, [7, 3, 18, 10, 22, 8, 11, 26, 12]), [27]);
      ChildOf(t, 26, 22, L) && ChildOf(t, 18, 26, R)
  {
    TwoBalancingTree();
    AfterUpdateStep1();
    assert SetEach(SetEach(Empty, [7, 3, 18, 10, 22, 8, 11, 26, 12]), [27]) == T(T(T(Empty, 3, 3, Empty, Black), 7, 7, T(Empty, 8, 8, Empty, Black), Red), 10, 10, T(T(Empty, 11, 11, T(Empty, 12, 12, Empty, Red), Black), 18, 18, T(T(Empty, 22, 22, Empty, Red), 26, 26, T(Empty, 27, 27, Empty, Red), Black), Red), Black);
  }
}
