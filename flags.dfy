/** Which positions of a run of yes/no decisions said yes: the indices a loop
    that keeps some of its items ends up with, and how many there are. */
module Flags {

  /** The indices below `n` whose flag is set. */
  function SetIndices(flags: seq<bool>, n: nat): set<nat>
    requires n <= |flags|
  {
    set i | 0 <= i < n && flags[i]
  }

  /** Taking one more index adds it exactly when its flag is set. */
  lemma SetIndicesStep(flags: seq<bool>, n: nat)
    requires n < |flags|
    ensures |SetIndices(flags, n + 1)| == |SetIndices(flags, n)| + (if flags[n] then 1 else 0)
  {
    var a := SetIndices(flags, n);
    var b := SetIndices(flags, n + 1);
    if flags[n] {
      assert n !in a;
      assert b == a + {n};
    } else {
      assert b == a;
    }
  }

  /** The indices below `n` whose flag is set, in increasing order. */
  function TrueIndices(flags: seq<bool>, n: nat): seq<nat>
    requires n <= |flags|
  {
    if n == 0 then [] else TrueIndices(flags, n - 1) + (if flags[n - 1] then [n - 1] else [])
  }

  /** `TrueIndices` lists exactly the set indices, each once, in increasing order. */
  lemma {:induction false} TrueIndicesSpec(flags: seq<bool>, n: nat)
    requires n <= |flags|
    ensures forall j :: 0 <= j < |TrueIndices(flags, n)| ==> TrueIndices(flags, n)[j] < n
    ensures forall j, k :: 0 <= j < k < |TrueIndices(flags, n)| ==> TrueIndices(flags, n)[j] < TrueIndices(flags, n)[k]
    ensures forall i :: 0 <= i < n ==> (flags[i] <==> i in TrueIndices(flags, n))
  {
    if n > 0 {
      TrueIndicesSpec(flags, n - 1);
      var before := TrueIndices(flags, n - 1);
      assert n - 1 !in before;
      assert forall i :: i in before + [n - 1] <==> i in before || i == n - 1;
    }
  }
}
