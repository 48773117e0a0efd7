/** The page `getAll` answers with: `results.slice(startIndex, endIndex)`
    over the full listing, with JavaScript's `Array.prototype.slice` rules. */
module Paging {

  function Min(a: int, b: int): int { if a <= b then a else b }

  function Max(a: int, b: int): int { if a <= b then b else a }

  /** The position `slice` reads a start or end argument as: a negative
      argument counts back from the end, and both are clamped to the length. */
  function RelativeIndex(i: int, n: nat): (r: nat)
    ensures r <= n
  {
    if i < 0 then Max(n + i, 0) else Min(i, n)
  }

  /** Copies the elements from the relative start up to the relative end, as
      section 23.1.3.28 of ECMA-262 (`Array.prototype.slice`) prescribes.
      Indices beyond the listing give a shorter or empty page, never an error. */
  method Page<T>(results: seq<T>, startIndex: int, endIndex: int) returns (page: seq<T>)
    ensures |page| <= |results|
    ensures 0 <= startIndex <= endIndex <= |results| ==> page == results[startIndex..endIndex]
    ensures 0 <= startIndex && 0 <= endIndex ==>
      var lo := Min(startIndex, |results|);
      page == results[lo..Max(lo, Min(endIndex, |results|))]
    ensures 0 <= startIndex && 0 <= endIndex ==> |page| <= Max(endIndex - startIndex, 0)
    ensures |page| == Max(RelativeIndex(endIndex, |results|) - RelativeIndex(startIndex, |results|), 0)
    ensures forall k :: 0 <= k < |page| ==> page[k] == results[RelativeIndex(startIndex, |results|) + k]
  {
    var n := |results|;
    var from := RelativeIndex(startIndex, n);
    var final := RelativeIndex(endIndex, n);
    var k := from;
    page := [];
    while k < final
      invariant from <= k <= Max(from, final)
      invariant page == results[from..k]
    {
      page := page + [results[k]];
      k := k + 1;
    }
  }
}
