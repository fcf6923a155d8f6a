/**
 What the enclave page allocator promises, in terms of the set of used pages.

 PageAllocator.dfy proves that src/ert/libc/mman.c refines this.
 */
module PageSpec {
  import opened Common

  function Pages(pos: nat, count: nat): (s: set<nat>)
    ensures forall p: nat :: p in s <==> pos <= p < pos + count
    decreases count
  {
    if count == 0 then {} else {pos} + Pages(pos + 1, count - 1)
  }

  /** The pages from pos on are inside the data area and none of them is used. */
  ghost predicate Fits(used: set<nat>, total: nat, pos: nat, count: nat) {
    pos + count <= total && Pages(pos, count) !! used
  }

  /** The lowest position at or after from where count free pages lie side by side. */
  ghost function LowestFit(used: set<nat>, total: nat, count: nat, from: nat := 0): (r: Option<nat>)
    decreases total - from
  {
    if from + count > total then None
    else if Fits(used, total, from, count) then Some(from)
    else if from < total then LowestFit(used, total, count, from + 1)
    else None
  }

  lemma {:induction false} LowestFitIsLowest(used: set<nat>, total: nat, count: nat, from: nat)
    ensures match LowestFit(used, total, count, from)
      case None => forall pos: nat :: from <= pos ==> !Fits(used, total, pos, count)
      case Some(r) =>
        && from <= r && Fits(used, total, r, count)
        && forall pos: nat :: from <= pos < r ==> !Fits(used, total, pos, count)
    decreases total - from
  {
    if from + count <= total && !Fits(used, total, from, count) && from < total {
      LowestFitIsLowest(used, total, count, from + 1);
    }
  }

  /** The position returned by a search with the same two properties is the lowest fit. */
  lemma LowestFitUnique(used: set<nat>, total: nat, count: nat, r: Option<nat>)
    requires match r
      case None => forall pos: nat :: !Fits(used, total, pos, count)
      case Some(p) => Fits(used, total, p, count) && forall pos: nat :: pos < p ==> !Fits(used, total, pos, count)
    ensures r == LowestFit(used, total, count)
  {
    LowestFitIsLowest(used, total, count, 0);
  }

  // ---------- runs ----------

  /** A request after argument checks: count is in range, and pos + count <= total for Fixed and Unmap. */
  datatype Request =
    | Map(count: nat)
    | Fixed(pos: nat, count: nat)
    | Unmap(pos: nat, count: nat)

  ghost function Step(used: set<nat>, total: nat, request: Request): set<nat> {
    match request
    case Map(count) =>
      (match LowestFit(used, total, count)
       case None => used
       case Some(pos) => used + Pages(pos, count))
    case Fixed(pos, count) => used + Pages(pos, count)
    case Unmap(pos, count) => used - Pages(pos, count)
  }

  /** The used pages after the first n requests of a run that starts with an empty heap. */
  ghost function UsedAfter(total: nat, run: seq<Request>, n: nat): set<nat>
    requires n <= |run|
  {
    if n == 0 then {} else Step(UsedAfter(total, run, n - 1), total, run[n - 1])
  }

  /** The pages that request i of the run obtains. */
  ghost function Granted(total: nat, run: seq<Request>, i: nat): set<nat>
    requires i < |run|
  {
    match run[i]
    case Map(count) =>
      (match LowestFit(UsedAfter(total, run, i), total, count)
       case None => {}
       case Some(pos) => Pages(pos, count))
    case Fixed(pos, count) => Pages(pos, count)
    case Unmap(_, _) => {}
  }

  predicate UnmapsBetween(run: seq<Request>, i: nat, j: nat, page: nat)
    requires j <= |run|
  {
    exists k: nat :: i < k < j && run[k].Unmap? && run[k].pos <= page < run[k].pos + run[k].count
  }

  lemma {:induction false} GrantedStaysUsed(total: nat, run: seq<Request>, i: nat, j: nat, page: nat)
    requires i < j <= |run| && page in Granted(total, run, i)
    requires !UnmapsBetween(run, i, j, page)
    ensures page in UsedAfter(total, run, j)
  {
    if i + 1 < j {
      GrantedStaysUsed(total, run, i, j - 1, page);
      assert run[j - 1].Unmap? ==> page !in Pages(run[j - 1].pos, run[j - 1].count);
    }
  }

  /**
   Over every run, a page handed out by a request is handed out again by a later non-fixed request
   only if some request in between unmapped it.
   */
  lemma LiveMappingsAreDisjoint(total: nat, run: seq<Request>, i: nat, j: nat, page: nat)
    requires i < j < |run| && run[j].Map?
    requires page in Granted(total, run, i) && page in Granted(total, run, j)
    ensures UnmapsBetween(run, i, j, page)
  {
    if !UnmapsBetween(run, i, j, page) {
      GrantedStaysUsed(total, run, i, j, page);
      LowestFitIsLowest(UsedAfter(total, run, j), total, run[j].count, 0);
    }
  }

  /** A used page was granted by some request and not unmapped since: the allocator invents no used pages. */
  lemma {:induction false} UsedWasGranted(total: nat, run: seq<Request>, n: nat, page: nat) returns (i: nat)
    requires n <= |run| && page in UsedAfter(total, run, n)
    ensures i < n && page in Granted(total, run, i) && !UnmapsBetween(run, i, n, page)
  {
    if page in Granted(total, run, n - 1) {
      i := n - 1;
    } else {
      i := UsedWasGranted(total, run, n - 1, page);
    }
  }
}
