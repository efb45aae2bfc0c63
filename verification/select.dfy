/** Index selection as numpy does it: `where(mask)[0]` and fancy indexing `s[idx]`. */
module Select {
  import opened Wrappers

  predicate StrictlyIncreasing(s: seq<int>) {
    forall i, j :: 0 <= i < j < |s| ==> s[i] < s[j]
  }

  /** `where(mask)[0]`: the positions at which `mask` holds, in ascending order, each once. */
  function Where(mask: seq<bool>): (r: seq<nat>)
    ensures StrictlyIncreasing(r)
    ensures forall j :: 0 <= j < |r| ==> r[j] < |mask| && mask[r[j]]
    ensures forall i :: 0 <= i < |mask| && mask[i] ==> i in r
    decreases |mask|
  {
    if mask == [] then []
    else
      var rest := Where(mask[..|mask| - 1]);
      if mask[|mask| - 1] then rest + [|mask| - 1] else rest
  }

  /** The first position `where` reports is the first position at which the mask holds. */
  lemma WhereStartsAtFirst(mask: seq<bool>)
    requires Where(mask) != []
    ensures forall j :: 0 <= j < Where(mask)[0] ==> !mask[j]
  {
  }

  /** `sub` is `full` read at the strictly increasing positions `pos`. */
  predicate EmbedsAt<T(==)>(sub: seq<T>, full: seq<T>, pos: seq<nat>) {
    && |pos| == |sub|
    && StrictlyIncreasing(pos)
    && forall j :: 0 <= j < |sub| ==> pos[j] < |full| && sub[j] == full[pos[j]]
  }

  /** `where(s == x)[0][0]`: the first position of `x`; `None` is the IndexError raised
      when `x` does not occur. */
  function FirstIndex<T(==)>(s: seq<T>, x: T): (r: Option<nat>)
    ensures r.None? <==> x !in s
    ensures r.Some? ==> r.value < |s| && s[r.value] == x && forall k :: 0 <= k < r.value ==> s[k] != x
    decreases |s|
  {
    if s == [] then None
    else if s[0] == x then Some(0)
    else
      match FirstIndex(s[1..], x)
      case None => None
      case Some(k) => Some(k + 1)
  }

  /** Fancy indexing `s[idx]`. */
  function Gather<T>(s: seq<T>, idx: seq<nat>): seq<T>
    requires forall j :: 0 <= j < |idx| ==> idx[j] < |s|
  {
    seq(|idx|, j requires 0 <= j < |idx| => s[idx[j]])
  }
}
