/** USER_CNT_INC and USER_CNT_DEC messages, as true and false. */
module Counting {

  // Ups minus downs.
  function Net(updates: seq<bool>): int {
    if updates == [] then 0 else (if updates[0] then 1 else -1) + Net(updates[1..])
  }

  lemma {:induction false} NetConcat(a: seq<bool>, b: seq<bool>)
    ensures Net(a + b) == Net(a) + Net(b)
    decreases |a|
  {
    if a == [] {
      assert a + b == b;
    } else {
      assert (a + b)[1..] == a[1..] + b;
      NetConcat(a[1..], b);
    }
  }

  lemma NetSnoc(updates: seq<bool>, up: bool)
    ensures Net(updates + [up]) == Net(updates) + if up then 1 else -1
  {
    NetConcat(updates, [up]);
    assert [up][1..] == [];
  }
}
