/**
 * Compressed storage keeps a sequence of lanes (columns or rows) as one
 * flat array plus an offsets array: lane k occupies positions
 * offsets[k] .. offsets[k + 1] of the flat array.  This module builds that
 * layout from a sequence of lanes and proves that every lane can be read
 * back from it.
 */
module Flatten {

  /** All lanes, one after the other. */
  function Concat<T>(lanes: seq<seq<T>>): (r: seq<T>)
  {
    if |lanes| == 0 then [] else Concat(lanes[..|lanes| - 1]) + lanes[|lanes| - 1]
  }

  /** The start of every lane in Concat(lanes), followed by the total length. */
  function Offsets<T>(lanes: seq<seq<T>>): (r: seq<nat>)
    ensures |r| == |lanes| + 1
    ensures r[0] == 0 && r[|lanes|] == |Concat(lanes)|
  {
    if |lanes| == 0 then [0] else Offsets(lanes[..|lanes| - 1]) + [|Concat(lanes)|]
  }

  lemma {:induction false} OffsetsMonotone<T>(lanes: seq<seq<T>>, k: nat, k': nat)
    requires k <= k' <= |lanes|
    ensures Offsets(lanes)[k] <= Offsets(lanes)[k']
    decreases |lanes|
  {
    if |lanes| > 0 {
      var init := lanes[..|lanes| - 1];
      if k' == |lanes| {
        if k < |lanes| {
          OffsetsMonotone(init, k, |init|);
        }
      } else {
        OffsetsMonotone(init, k, k');
      }
    }
  }

  /** Lane k is exactly the slice of Concat(lanes) that Offsets(lanes) assigns to it. */
  lemma {:induction false} LaneSlice<T>(lanes: seq<seq<T>>, k: nat)
    requires k < |lanes|
    ensures Offsets(lanes)[k] <= Offsets(lanes)[k + 1] <= |Concat(lanes)|
    ensures Concat(lanes)[Offsets(lanes)[k]..Offsets(lanes)[k + 1]] == lanes[k]
    decreases |lanes|
  {
    var init := lanes[..|lanes| - 1];
    assert Concat(lanes) == Concat(init) + lanes[|lanes| - 1];
    if k < |lanes| - 1 {
      LaneSlice(init, k);
      OffsetsMonotone(init, k + 1, |init|);
      assert Offsets(lanes)[k] == Offsets(init)[k];
      assert Offsets(lanes)[k + 1] == Offsets(init)[k + 1];
      assert init[k] == lanes[k];
    }
  }

  /** The offsets depend only on the lengths of the lanes. */
  lemma {:induction false} OffsetsSameLengths<A, B>(a: seq<seq<A>>, b: seq<seq<B>>)
    requires |a| == |b|
    requires forall k :: 0 <= k < |a| ==> |a[k]| == |b[k]|
    ensures Offsets(a) == Offsets(b)
    ensures |Concat(a)| == |Concat(b)|
    decreases |a|
  {
    if |a| > 0 {
      OffsetsSameLengths(a[..|a| - 1], b[..|b| - 1]);
    }
  }

  /** Every element of the flat array comes from some lane. */
  lemma {:induction false} ConcatElement<T>(lanes: seq<seq<T>>, x: T)
    requires x in Concat(lanes)
    ensures exists k :: 0 <= k < |lanes| && x in lanes[k]
    decreases |lanes|
  {
    var init := lanes[..|lanes| - 1];
    if x !in lanes[|lanes| - 1] {
      ConcatElement(init, x);
      var k :| 0 <= k < |init| && x in init[k];
      assert lanes[k] == init[k];
    }
  }
}
