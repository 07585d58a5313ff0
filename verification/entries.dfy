/** The entries that the transform step hands to the incremental filter, and the
    sequence vocabulary used to talk about them. */
module Entries {

  /** One upload record. The wire format discriminates on a `type` field whose only
      values are "sgv" and "pump_status"; the filter looks at nothing but that
      discriminator and, for sgv records, the epoch-millisecond `date`. */
  datatype Entry =
    | Sgv(date: int, sgv: int)
    | PumpStatus(date: int)

  /** The entries of `es` that are not sensor glucose values, in their original order. */
  function NonSgvs(es: seq<Entry>): (r: seq<Entry>)
    ensures |r| <= |es|
    ensures forall i :: 0 <= i < |r| ==> !r[i].Sgv?
  {
    if es == [] then []
    else
      var last := es[|es| - 1];
      NonSgvs(es[..|es| - 1]) + (if last.Sgv? then [] else [last])
  }

  /** `NonSgvs` keeps exactly the non-sgv entries: each of its elements comes from
      the input, and each non-sgv entry of the input is among them. */
  lemma {:induction false} NonSgvsMembers(es: seq<Entry>)
    ensures forall i :: 0 <= i < |NonSgvs(es)| ==> NonSgvs(es)[i] in es
    ensures forall i :: 0 <= i < |es| && !es[i].Sgv? ==> es[i] in NonSgvs(es)
    decreases |es|
  {
    if es != [] {
      var es' := es[..|es| - 1];
      NonSgvsMembers(es');
      assert forall i :: 0 <= i < |es'| ==> es'[i] == es[i];
    }
  }

  /** `xs` can be obtained from `ys` by deleting elements, keeping the rest in order. */
  predicate IsSubsequence<T(==)>(xs: seq<T>, ys: seq<T>)
    decreases |ys|
  {
    if xs == [] then true
    else if ys == [] then false
    else
      var xs', ys' := xs[..|xs| - 1], ys[..|ys| - 1];
      (xs[|xs| - 1] == ys[|ys| - 1] && IsSubsequence(xs', ys')) || IsSubsequence(xs, ys')
  }

  /** Every sgv of `es` has a date at most `mark`. */
  predicate SgvsAtMost(es: seq<Entry>, mark: int)
  {
    forall i :: 0 <= i < |es| && es[i].Sgv? ==> es[i].date <= mark
  }

  /** Every sgv of `es` has a date strictly above `mark`. */
  predicate SgvsAbove(es: seq<Entry>, mark: int)
  {
    forall i :: 0 <= i < |es| && es[i].Sgv? ==> es[i].date > mark
  }
}
