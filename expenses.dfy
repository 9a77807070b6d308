/** An expense record and the pure computations over a list of them that the store
    uses: the id of the next record after a load, the `findIndex` lookup by id and
    the one-element `splice`. */
module Expenses {
  import opened Wrappers

  /** One record of the expenses file. The amount is in cents, so sums are exact. */
  datatype Expense = Expense(id: int, date: string, description: string, amount: int)

  /** What reading and parsing the expenses file produced: no file, a file that could
      not be read or parsed, or the parsed list of records. */
  datatype LoadInput = NoFile | Unparsable | Parsed(items: seq<Expense>)

  predicate IdsDistinct(s: seq<Expense>) {
    forall i, j :: 0 <= i < j < |s| ==> s[i].id != s[j].id
  }

  predicate IdsBelow(s: seq<Expense>, bound: int) {
    forall i :: 0 <= i < |s| ==> s[i].id < bound
  }

  /** Ids rise along the list, as they do for a list built by `add` alone. */
  predicate IdsIncreasing(s: seq<Expense>) {
    forall i, j :: 0 <= i < j < |s| ==> s[i].id < s[j].id
  }

  predicate HasId(s: seq<Expense>, id: int) {
    exists i :: 0 <= i < |s| && s[i].id == id
  }

  /** `Math.max(...ids)` of a non-empty list: an id of the list that no id exceeds. */
  function MaxId(s: seq<Expense>): (m: int)
    requires |s| > 0
    ensures IdsBelow(s, m + 1)
    ensures HasId(s, m)
  {
    if |s| == 1 then s[0].id
    else
      var rest := MaxId(s[1..]);
      assert forall i :: 1 <= i < |s| ==> s[i] == s[1..][i - 1];
      if s[0].id >= rest then s[0].id else rest
  }

  /** The counter a load leaves behind: the largest id plus one, or 1 for an empty list. */
  function NextIdAfterLoad(s: seq<Expense>): (next: int)
    ensures IdsBelow(s, next)
    ensures |s| == 0 ==> next == 1
    ensures |s| > 0 ==> HasId(s, next - 1)
  {
    if |s| > 0 then MaxId(s) + 1 else 1
  }

  /** `findIndex` by id: the position of the first record with that id, or -1. */
  function FindIndex(s: seq<Expense>, id: int): (k: int)
    ensures -1 <= k < |s|
    ensures k == -1 <==> !HasId(s, id)
    ensures k >= 0 ==> s[k].id == id && forall j :: 0 <= j < k ==> s[j].id != id
  {
    if |s| == 0 then -1
    else if s[0].id == id then 0
    else
      var k := FindIndex(s[1..], id);
      assert forall i :: 1 <= i < |s| ==> s[i] == s[1..][i - 1];
      if k == -1 then -1 else k + 1
  }

  /** `splice(k, 1)`: the list without its element at position `k`. */
  function RemoveAt(s: seq<Expense>, k: nat): (r: seq<Expense>)
    requires k < |s|
    ensures |r| == |s| - 1
    ensures forall i :: 0 <= i < k ==> r[i] == s[i]
    ensures forall i :: k <= i < |r| ==> r[i] == s[i + 1]
  {
    s[..k] + s[k + 1..]
  }

  /** Removing a record keeps the ids below the same bound, keeps them distinct and
      increasing when they were, and with distinct ids the removed id is gone. */
  lemma RemoveAtKeepsIds(s: seq<Expense>, k: nat, bound: int)
    requires k < |s|
    ensures IdsBelow(s, bound) ==> IdsBelow(RemoveAt(s, k), bound)
    ensures IdsDistinct(s) ==> IdsDistinct(RemoveAt(s, k)) && !HasId(RemoveAt(s, k), s[k].id)
    ensures IdsIncreasing(s) ==> IdsIncreasing(RemoveAt(s, k))
  {
  }

  /** Appending a record whose id is the bound keeps the ids distinct and increasing
      and puts them all below the bound plus one. */
  lemma AppendAtBoundKeepsIds(s: seq<Expense>, e: Expense, bound: int)
    requires IdsBelow(s, bound) && e.id == bound
    ensures IdsBelow(s + [e], bound + 1)
    ensures !HasId(s, e.id)
    ensures IdsDistinct(s) ==> IdsDistinct(s + [e])
    ensures IdsIncreasing(s) ==> IdsIncreasing(s + [e])
  {
  }
}
