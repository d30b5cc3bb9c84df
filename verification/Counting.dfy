/** Counting by a loop is counting the elements of a set. */
module Counting {

  function Trues(marks: seq<bool>, n: nat): nat
    requires n <= |marks|
  {
    if n == 0 then 0 else Trues(marks, n - 1) + (if marks[n - 1] then 1 else 0)
  }

  lemma {:induction false} TruesCounted(marks: seq<bool>, n: nat)
    requires n <= |marks|
    ensures Trues(marks, n) == |set i | 0 <= i < n && marks[i]|
  {
    var all := set i | 0 <= i < n && marks[i];
    if n == 0 {
      assert all == {};
    } else {
      TruesCounted(marks, n - 1);
      assert all == (set i | 0 <= i < n - 1 && marks[i]) + (if marks[n - 1] then {n - 1} else {});
    }
  }

  lemma {:induction false} TruesOfAll(marks: seq<bool>, n: nat)
    requires n <= |marks|
    ensures (forall i :: 0 <= i < n ==> marks[i]) ==> Trues(marks, n) == n
    ensures (forall i :: 0 <= i < n ==> !marks[i]) ==> Trues(marks, n) == 0
  {
    if n > 0 {
      TruesOfAll(marks, n - 1);
    }
  }
}
