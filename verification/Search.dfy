/** Searching a row list by a key function, and lists whose keys are distinct. */
module Search {

  /** Position of the first row whose key is `k`, or -1. */
  function IndexBy<T, K(==)>(rows: seq<T>, key: T -> K, k: K): (i: int)
    ensures -1 <= i < |rows|
    ensures i >= 0 ==> key(rows[i]) == k
    ensures forall j :: 0 <= j < (if i < 0 then |rows| else i) ==> key(rows[j]) != k
  {
    if rows == [] then -1
    else
      var n := |rows| - 1;
      var i := IndexBy(rows[..n], key, k);
      if i >= 0 then i else if key(rows[n]) == k then n else -1
  }

  /** The ascending positions of exactly the rows whose key is `k`. */
  function PositionsBy<T, K(==)>(rows: seq<T>, key: T -> K, k: K): (ps: seq<nat>)
    ensures forall a :: 0 <= a < |ps| ==> ps[a] < |rows| && key(rows[ps[a]]) == k
    ensures forall i :: 0 <= i < |rows| && key(rows[i]) == k ==> i in ps
    ensures forall a, b :: 0 <= a < b < |ps| ==> ps[a] < ps[b]
  {
    if rows == [] then []
    else
      var n := |rows| - 1;
      PositionsBy(rows[..n], key, k) + if key(rows[n]) == k then [n] else []
  }

  /** The search loop shared by the source's find functions. */
  method FindBy<T, K(==)>(rows: seq<T>, key: T -> K, k: K) returns (i: int)
    ensures i == IndexBy(rows, key, k)
  {
    for n := 0 to |rows|
      invariant IndexBy(rows[..n], key, k) == -1
    {
      assert rows[..n + 1][..n] == rows[..n];
      if key(rows[n]) == k {
        return n;
      }
    }
    assert rows[..|rows|] == rows;
    return -1;
  }

  /** No two rows accepted by `counts` have the same key. */
  ghost predicate DistinctBy<T, K>(rows: seq<T>, counts: T -> bool, key: T -> K) {
    forall i, j :: 0 <= i < j < |rows| && counts(rows[i]) && counts(rows[j]) ==> key(rows[i]) != key(rows[j])
  }

  lemma DistinctAppend<T, K>(rows: seq<T>, counts: T -> bool, key: T -> K, x: T)
    requires DistinctBy(rows, counts, key)
    ensures DistinctBy(rows + [x], counts, key) <==>
      (counts(x) ==> forall i :: 0 <= i < |rows| && counts(rows[i]) ==> key(rows[i]) != key(x))
  {
    var all := rows + [x];
    assert all[|rows|] == x && forall i :: 0 <= i < |rows| ==> all[i] == rows[i];
  }

  lemma DistinctUpdate<T, K>(rows: seq<T>, counts: T -> bool, key: T -> K, at: nat, x: T)
    requires DistinctBy(rows, counts, key) && at < |rows|
    ensures DistinctBy(rows[at := x], counts, key) <==>
      (counts(x) ==> forall i :: 0 <= i < |rows| && i != at && counts(rows[i]) ==> key(rows[i]) != key(x))
  {
    var all := rows[at := x];
    assert all[at] == x && forall i :: 0 <= i < |rows| && i != at ==> all[i] == rows[i];
  }

  lemma DistinctRemove<T, K>(rows: seq<T>, counts: T -> bool, key: T -> K, at: nat)
    requires DistinctBy(rows, counts, key) && at < |rows|
    ensures DistinctBy(rows[..at] + rows[at + 1..], counts, key)
  {
  }

  /** A key found only at `at` (nowhere when `at` is -1) has just that position. */
  lemma {:induction false} OnePosition<T, K>(rows: seq<T>, key: T -> K, k: K, at: int)
    requires -1 <= at < |rows|
    requires forall i :: 0 <= i < |rows| ==> (key(rows[i]) == k <==> i == at)
    ensures PositionsBy(rows, key, k) == if at < 0 then [] else [at]
  {
    if rows != [] {
      var n := |rows| - 1;
      OnePosition(rows[..n], key, k, if at == n then -1 else at);
    }
  }

  /** Append a row with a new key, then delete the first row with key `k`: this restores the list exactly
      when `k` is the new row's key. */
  lemma AppendThenDelete<T, K>(rows: seq<T>, key: T -> K, x: T, k: K)
    requires forall j :: 0 <= j < |rows| ==> key(rows[j]) != key(x)
    ensures var all := rows + [x]; var i := IndexBy(all, key, k);
            (i >= 0 && all[..i] + all[i + 1..] == rows) <==> key(x) == k
  {
    var all := rows + [x];
    var i := IndexBy(all, key, k);
    assert all[|rows|] == x;
    if key(x) != k && i >= 0 {
      assert (all[..i] + all[i + 1..])[|rows| - 1] == x;
    }
  }

  // ---- What a search and a deletion are, without saying how ----

  /** `i` is the first position whose row `p` accepts. */
  predicate FirstAt<T>(rows: seq<T>, p: T -> bool, i: int) {
    0 <= i < |rows| && p(rows[i]) && forall j :: 0 <= j < i ==> !p(rows[j])
  }

  predicate NoneAt<T>(rows: seq<T>, p: T -> bool) {
    forall i :: 0 <= i < |rows| ==> !p(rows[i])
  }

  /** `out` is `rows` without position `i`; everything else keeps its order. */
  predicate Without<T(==)>(rows: seq<T>, i: nat, out: seq<T>) {
    && i < |rows| == |out| + 1
    && (forall j :: 0 <= j < i ==> out[j] == rows[j])
    && (forall j :: i <= j < |out| ==> out[j] == rows[j + 1])
  }

  /** `out` is `rows` with `x` in place of position `i`, or behind everything if `i` is the length. */
  predicate With<T(==)>(rows: seq<T>, i: nat, x: T, out: seq<T>) {
    && i <= |rows| && |out| == (if i == |rows| then |rows| + 1 else |rows|)
    && out[i] == x && forall j :: 0 <= j < |rows| && j != i ==> out[j] == rows[j]
  }

  /** Searching by key finds the first row that has it. */
  lemma IndexIsFirst<T, K>(rows: seq<T>, key: T -> K, k: K, p: T -> bool)
    requires forall r <- rows :: key(r) == k <==> p(r)
    ensures var i := IndexBy(rows, key, k); if i < 0 then NoneAt(rows, p) else FirstAt(rows, p, i)
  {
    assert forall i :: 0 <= i < |rows| ==> rows[i] in rows;
  }

  /** `out` holds, in the order of the rows, one item for each row listed in `from`; every other row yields nothing. */
  ghost predicate Gathers<T, U>(rows: seq<T>, gives: (T, U) -> bool, silent: T -> bool, out: seq<U>, from: seq<nat>) {
    && |from| == |out| && (forall a, b :: 0 <= a < b < |from| ==> from[a] < from[b])
    && (forall a :: 0 <= a < |from| ==> from[a] < |rows| && gives(rows[from[a]], out[a]))
    && (forall i :: 0 <= i < |rows| && i !in from ==> silent(rows[i]))
  }

  lemma GathersSkip<T, U>(rows: seq<T>, gives: (T, U) -> bool, silent: T -> bool, out: seq<U>, from: seq<nat>, r: T)
    requires Gathers(rows, gives, silent, out, from) && silent(r)
    ensures Gathers(rows + [r], gives, silent, out, from)
  {
  }

  lemma GathersTake<T, U>(rows: seq<T>, gives: (T, U) -> bool, silent: T -> bool, out: seq<U>, from: seq<nat>, r: T,
                          x: U)
    requires Gathers(rows, gives, silent, out, from) && gives(r, x)
    ensures Gathers(rows + [r], gives, silent, out + [x], from + [|rows|])
  {
    assert |rows| in from + [|rows|] && forall i <- from :: i in from + [|rows|];
  }

  function Later(from: seq<nat>): seq<nat> {
    seq(|from|, a requires 0 <= a < |from| => from[a] + 1)
  }

  lemma LaterHas(from: seq<nat>, i: nat)
    ensures i + 1 in Later(from) <==> i in from
  {
    if i in from {
      var a :| 0 <= a < |from| && from[a] == i;
      assert Later(from)[a] == i + 1;
    }
  }

  lemma GathersFrontSkip<T, U>(rows: seq<T>, gives: (T, U) -> bool, silent: T -> bool, out: seq<U>, from: seq<nat>,
                               r: T)
    requires Gathers(rows, gives, silent, out, from) && silent(r)
    ensures Gathers([r] + rows, gives, silent, out, Later(from))
  {
    var all, whence := [r] + rows, Later(from);
    assert all[0] == r && forall i :: 0 < i < |all| ==> all[i] == rows[i - 1];
    forall a | 0 <= a < |whence| ensures whence[a] < |all| && gives(all[whence[a]], out[a]) {
      assert whence[a] == from[a] + 1;
    }
    forall i | 0 <= i < |all| && i !in whence ensures silent(all[i]) {
      if i > 0 {
        LaterHas(from, i - 1);
      }
    }
  }

  lemma GathersFrontTake<T, U>(rows: seq<T>, gives: (T, U) -> bool, silent: T -> bool, out: seq<U>, from: seq<nat>,
                               r: T, x: U)
    requires Gathers(rows, gives, silent, out, from) && gives(r, x)
    ensures Gathers([r] + rows, gives, silent, [x] + out, [0] + Later(from))
  {
    var all, items, whence := [r] + rows, [x] + out, [0] + Later(from);
    assert all[0] == r && forall i :: 0 < i < |all| ==> all[i] == rows[i - 1];
    forall a | 0 <= a < |whence| ensures whence[a] < |all| && gives(all[whence[a]], items[a]) {
      assert a > 0 ==> whence[a] == from[a - 1] + 1;
    }
    forall i | 0 <= i < |all| && i !in whence ensures silent(all[i]) {
      assert whence[0] == 0 && i > 0;
      LaterHas(from, i - 1);
    }
  }

  /** Likewise by position: `out` holds an item for each position below `n` that `joins` accepts, in order. */
  ghost predicate Picks<U>(n: nat, joins: nat -> bool, item: (nat, U) -> bool, out: seq<U>, from: seq<nat>) {
    && |from| == |out| && (forall a, b :: 0 <= a < b < |from| ==> from[a] < from[b])
    && (forall a :: 0 <= a < |from| ==> from[a] < n && joins(from[a]) && item(from[a], out[a]))
    && (forall i: nat :: i < n && i !in from ==> !joins(i))
  }

  lemma PicksSkip<U>(n: nat, joins: nat -> bool, item: (nat, U) -> bool, out: seq<U>, from: seq<nat>,
                     joins': nat -> bool, item': (nat, U) -> bool)
    requires Picks(n, joins, item, out, from) && !joins'(n)
    requires forall i: nat :: i < n ==> joins(i) == joins'(i)
    requires forall i: nat, x :: i < n && item(i, x) ==> item'(i, x)
    ensures Picks(n + 1, joins', item', out, from)
  {
  }

  lemma PicksTake<U>(n: nat, joins: nat -> bool, item: (nat, U) -> bool, out: seq<U>, from: seq<nat>,
                     joins': nat -> bool, item': (nat, U) -> bool, x: U)
    requires Picks(n, joins, item, out, from) && joins'(n) && item'(n, x)
    requires forall i: nat :: i < n ==> joins(i) == joins'(i)
    requires forall i: nat, x :: i < n && item(i, x) ==> item'(i, x)
    ensures Picks(n + 1, joins', item', out + [x], from + [n])
  {
    assert n in from + [n] && forall i <- from :: i in from + [n];
  }
}
