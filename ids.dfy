/** Sequential id allocation and lookup by id, shared by the three in-memory
    collections: `list.Any() ? list.Max(x => x.Id) + 1 : 1`,
    `list.FirstOrDefault(x => x.Id == id)` and `list.Remove(x)`. */
module IdAllocation {
  import opened Text

  /** The ids of a collection, in list order. */
  function IdsOf<T>(s: seq<T>, id: T -> int): (r: seq<int>)
    ensures |r| == |s| && forall k :: 0 <= k < |s| ==> r[k] == id(s[k])
  {
    seq(|s|, k requires 0 <= k < |s| => id(s[k]))
  }

  predicate Distinct(ids: seq<int>) {
    forall i, j :: 0 <= i < j < |ids| ==> ids[i] != ids[j]
  }

  /** Enumerable.Max over a non-empty sequence. */
  function MaxId(ids: seq<int>): (m: int)
    requires ids != []
    ensures m in ids
    ensures forall k :: 0 <= k < |ids| ==> ids[k] <= m
  {
    if |ids| == 1 then ids[0]
    else
      var rest := MaxId(ids[1..]);
      if ids[0] < rest then rest else ids[0]
  }

  /** The id a POST assigns: one more than the largest id, or 1 for an empty
      collection. It is larger than every id in use. */
  function NextId(ids: seq<int>): (n: int)
    ensures forall k :: 0 <= k < |ids| ==> ids[k] < n
    ensures ids == [] ==> n == 1
    ensures ids != [] ==> n - 1 in ids
  {
    if ids == [] then 1 else MaxId(ids) + 1
  }

  /** The position FirstOrDefault(x => x.Id == id) finds: the first one. */
  function IndexOf(ids: seq<int>, id: int): (r: Option<nat>)
    ensures r == None <==> id !in ids
    ensures r.Some? ==> r.value < |ids| && ids[r.value] == id
    ensures r.Some? ==> forall k :: 0 <= k < r.value ==> ids[k] != id
  {
    if ids == [] then None
    else if ids[0] == id then Some(0)
    else
      match IndexOf(ids[1..], id)
      case None => None
      case Some(k) => Some(k + 1)
  }

  /** List.Remove of the element at position i. */
  function RemoveAt<T>(s: seq<T>, i: nat): (r: seq<T>)
    requires i < |s|
    ensures |r| == |s| - 1
    ensures forall k :: 0 <= k < i ==> r[k] == s[k]
    ensures forall k :: i <= k < |r| ==> r[k] == s[k + 1]
  {
    s[..i] + s[i + 1..]
  }

  lemma IdsOfAppend<T>(s: seq<T>, x: T, id: T -> int)
    ensures IdsOf(s + [x], id) == IdsOf(s, id) + [id(x)]
  {
  }

  lemma IdsOfRemoveAt<T>(s: seq<T>, i: nat, id: T -> int)
    requires i < |s|
    ensures IdsOf(RemoveAt(s, i), id) == RemoveAt(IdsOf(s, id), i)
  {
  }

  lemma IdsOfUpdate<T>(s: seq<T>, i: nat, x: T, id: T -> int)
    requires i < |s| && id(x) == id(s[i])
    ensures IdsOf(s[i := x], id) == IdsOf(s, id)
  {
  }

  /** Appending the next id keeps the ids distinct. */
  lemma AppendNextIdKeepsDistinct(ids: seq<int>)
    requires Distinct(ids)
    ensures Distinct(ids + [NextId(ids)])
  {
  }

  /** Removing an entry keeps the rest distinct and drops that id entirely. */
  lemma RemoveAtKeepsDistinct(ids: seq<int>, i: nat)
    requires Distinct(ids) && i < |ids|
    ensures Distinct(RemoveAt(ids, i))
    ensures ids[i] !in RemoveAt(ids, i)
  {
    var r := RemoveAt(ids, i);
    forall k | 0 <= k < |r| ensures r[k] != ids[i] {
      if k >= i { assert r[k] == ids[k + 1]; }
    }
  }

  /** After the entry with the largest id is removed from a collection that
      keeps other entries, the next id is at most that id; it is that id exactly when its predecessor is still in use
      (or, for an emptied collection, when it was 1): ids can be reused. */
  lemma {:induction false} NextIdAfterRemovingMax(ids: seq<int>, i: nat)
    requires Distinct(ids) && i < |ids| && ids[i] == MaxId(ids)
    ensures RemoveAt(ids, i) != [] ==> NextId(RemoveAt(ids, i)) <= ids[i]
    ensures NextId(RemoveAt(ids, i)) == ids[i] <==>
              if RemoveAt(ids, i) == [] then ids[i] == 1 else ids[i] - 1 in RemoveAt(ids, i)
  {
    var rest := RemoveAt(ids, i);
    RemoveAtKeepsDistinct(ids, i);
    if rest != [] {
      forall k | 0 <= k < |rest| ensures rest[k] < ids[i] {
        var j := if k < i then k else k + 1;
        assert rest[k] == ids[j] && j != i;
        assert ids[j] <= ids[i];
      }
      var m := MaxId(rest);
      var km :| 0 <= km < |rest| && rest[km] == m;
      assert m < ids[i];
      assert NextId(rest) == m + 1;
      if ids[i] - 1 in rest {
        var k :| 0 <= k < |rest| && rest[k] == ids[i] - 1;
        assert rest[k] <= m;
      }
    }
  }

  // 32-bit id arithmetic, as C# evaluates `Max(x => x.Id) + 1` on int
  // (unchecked by default): the sum wraps from int.MaxValue to int.MinValue.

  const IntMin: int := -0x8000_0000
  const IntMax: int := 0x7FFF_FFFF

  predicate IsInt32(x: int) { IntMin <= x <= IntMax }

  function Wrap32(x: int): (r: int)
    ensures IsInt32(r)
    ensures (r - x) % 0x1_0000_0000 == 0
    ensures IsInt32(x) ==> r == x
  {
    (x - IntMin) % 0x1_0000_0000 + IntMin
  }

  /** The id allocation as written, on 32-bit ids. */
  function NextIdInt32(ids: seq<int>): (n: int)
    ensures IsInt32(n)
    ensures ids != [] && IntMin <= MaxId(ids) < IntMax ==> n == NextId(ids)
    ensures ids == [] ==> n == NextId(ids)
  {
    if ids == [] then 1 else Wrap32(MaxId(ids) + 1)
  }

  /** Once an id reaches int.MaxValue, two POSTs in a row get int.MinValue:
      the second id collides with the first. */
  lemma NextIdInt32Collides()
    ensures NextIdInt32([IntMax]) == IntMin
    ensures Distinct([IntMax, IntMin])
    ensures NextIdInt32([IntMax, IntMin]) == IntMin
    ensures !Distinct([IntMax, IntMin] + [NextIdInt32([IntMax, IntMin])])
  {
    assert MaxId([IntMax, IntMin]) == IntMax;
    var ids := [IntMax, IntMin] + [NextIdInt32([IntMax, IntMin])];
    assert ids[1] == ids[2];
  }

  /** The corrected allocation, on unbounded ids, never collides. */
  lemma NextIdNeverCollides(ids: seq<int>)
    requires Distinct(ids)
    ensures NextId(ids) !in ids
    ensures Distinct(ids + [NextId(ids)])
  {
    AppendNextIdKeepsDistinct(ids);
  }
}
