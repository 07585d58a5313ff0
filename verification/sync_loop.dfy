/** The poll loop of run.js, reduced to what it decides: each cycle either stops the
    process on a fetch error or filters the transformed entries and uploads them
    when anything is left. Fetching, transforming, uploading and the timer are
    outside the model; the loop is a fold of `Cycle` over successive batches, and what
    it uploads is the output of the filter folded over the same batches. */
module SyncLoop {
  import opened Wrappers
  import opened Entries
  import opened SgvFilter

  /** What the fetch callback receives, after the transform step: the entries of
      the snapshot, or the error the client reported. */
  datatype Fetched = Fetched(entries: seq<Entry>) | FetchFailed(message: string)

  /** The state carried into the next cycle and the batch handed to the upload,
      if one is attempted. */
  datatype CycleResult = CycleResult(state: FilterState, upload: Option<seq<Entry>>)

  /** One cycle of `requestLoop`. A fetch error is thrown, which ends the process.
      Otherwise the filter runs and an upload is attempted exactly when its output
      is non-empty. Whether that upload succeeds does not influence the state: the
      mark has already moved and the next cycle is scheduled either way. */
  function Cycle(s: FilterState, fetched: Fetched): (r: Result<CycleResult, string>)
    ensures r.Failure? <==> fetched.FetchFailed?
    ensures r.Failure? ==> r.error == fetched.message
    ensures r.Success? ==> r.value.state == Filter(s, fetched.entries).state
    ensures r.Success? ==> r.value.state.lastSgvDate >= s.lastSgvDate
    ensures r.Success? ==>
      (r.value.upload.None? <==> NonSgvs(fetched.entries) == [] && SgvsAtMost(fetched.entries, s.lastSgvDate))
    ensures r.Success? && r.value.upload.Some? ==>
      r.value.upload.value != [] && SgvsAbove(r.value.upload.value, s.lastSgvDate)
      && IsSubsequence(r.value.upload.value, fetched.entries)
      && NonSgvs(r.value.upload.value) == NonSgvs(fetched.entries)
    ensures r.Success? && r.value.upload.Some? ==> r.value.upload.value == Filter(s, fetched.entries).out
  {
    match fetched
    case FetchFailed(message) => Failure(message)
    case Fetched(entries) =>
      var f := Filter(s, entries);
      EmptyOutputIffNothingNew(s.lastSgvDate, entries);
      SelectKeepsNonSgvs(s.lastSgvDate, entries);
      Success(CycleResult(f.state, if |f.out| > 0 then Some(f.out) else None))
  }

  /** The filter outputs of successive calls of the filter closure, fed with the
      batches `bs`: every sgv passed in any call has a date above the mark the run
      started from. */
  function Outputs(s: FilterState, bs: seq<seq<Entry>>): (r: seq<seq<Entry>>)
    ensures |r| == |bs|
    ensures forall k :: 0 <= k < |bs| ==> SgvsAbove(r[k], s.lastSgvDate)
    decreases |bs|
  {
    if bs == [] then []
    else
      var f := Filter(s, bs[0]);
      [f.out] + Outputs(f.state, bs[1..])
  }

  /** The state after successive cycles fed with the batches `bs`: the mark never
      moves down. */
  function FinalState(s: FilterState, bs: seq<seq<Entry>>): (r: FilterState)
    ensures r.lastSgvDate >= s.lastSgvDate
    decreases |bs|
  {
    if bs == [] then s
    else FinalState(Filter(s, bs[0]).state, bs[1..])
  }

  /** Every sgv of `earlier` is strictly older than every sgv of `later`. */
  predicate SgvsOlder(earlier: seq<Entry>, later: seq<Entry>)
  {
    forall a, b :: 0 <= a < |earlier| && 0 <= b < |later| && earlier[a].Sgv? && later[b].Sgv?
      ==> earlier[a].date < later[b].date
  }

  /** A mark that bounds one batch from above and the other from below orders them. */
  lemma MarkSeparates(earlier: seq<Entry>, later: seq<Entry>, mark: int)
    requires SgvsAtMost(earlier, mark) && SgvsAbove(later, mark)
    ensures SgvsOlder(earlier, later)
  {
  }

  /** The first cycle's sgvs are all older than those of any later cycle. */
  lemma FirstOutputOlder(s: FilterState, bs: seq<seq<Entry>>, j: int)
    requires 0 < j < |bs|
    ensures SgvsOlder(Outputs(s, bs)[0], Outputs(s, bs)[j])
  {
    var f := Filter(s, bs[0]);
    var rest := Outputs(f.state, bs[1..]);
    assert Outputs(s, bs) == [f.out] + rest;
    MarkSeparates(f.out, rest[j - 1], f.state.lastSgvDate);
  }

  /** Past the first cycle, a run's outputs are those of the run started from the
      state the first cycle left. */
  lemma OutputsTail(s: FilterState, bs: seq<seq<Entry>>)
    requires bs != []
    ensures Outputs(s, bs)[0] == Filter(s, bs[0]).out
    ensures forall k :: 0 < k < |bs| ==> Outputs(s, bs)[k] == Outputs(Filter(s, bs[0]).state, bs[1..])[k - 1]
  {
    assert Outputs(s, bs) == [Filter(s, bs[0]).out] + Outputs(Filter(s, bs[0]).state, bs[1..]);
  }

  /** The purpose of the filter: no sgv passed in one cycle is passed again in a
      later cycle. Every sgv passed in a later cycle is strictly newer than every sgv
      passed in an earlier one. Within one cycle, two sgvs with the same date both
      pass when both are above the mark. */
  lemma {:induction false} NoSgvPassedTwice(s: FilterState, bs: seq<seq<Entry>>)
    ensures forall i, j :: 0 <= i < j < |bs| ==> SgvsOlder(Outputs(s, bs)[i], Outputs(s, bs)[j])
    decreases |bs|
  {
    if bs != [] {
      var s1 := Filter(s, bs[0]).state;
      NoSgvPassedTwice(s1, bs[1..]);
      forall i, j | 0 <= i < j < |bs|
        ensures SgvsOlder(Outputs(s, bs)[i], Outputs(s, bs)[j])
      {
        if i == 0 {
          FirstOutputOlder(s, bs, j);
        } else {
          OutputsTail(s, bs);
        }
      }
    }
  }

  /** A run of the poll loop fed with the batches `bs` and no fetch error: the upload
      attempted in each cycle, if any. Each cycle uploads exactly the filter output of
      that cycle when it is non-empty, and nothing otherwise. */
  function Uploads(s: FilterState, bs: seq<seq<Entry>>): (r: seq<Option<seq<Entry>>>)
    ensures |r| == |bs|
    ensures forall k :: 0 <= k < |bs| ==>
      r[k] == if Outputs(s, bs)[k] == [] then None else Some(Outputs(s, bs)[k])
    decreases |bs|
  {
    if bs == [] then []
    else
      var c := Cycle(s, Fetched(bs[0])).value;
      var rest := Uploads(c.state, bs[1..]);
      OutputsTail(s, bs);
      [c.upload] + rest
  }

  /** No sgv uploaded in one cycle of the loop is uploaded again in a later cycle:
      each later upload holds only sgvs strictly newer than those of every earlier
      upload. */
  lemma NoSgvUploadedTwice(s: FilterState, bs: seq<seq<Entry>>)
    ensures forall i, j ::
              (0 <= i < j < |bs| && Uploads(s, bs)[i].Some? && Uploads(s, bs)[j].Some?)
              ==> SgvsOlder(Uploads(s, bs)[i].value, Uploads(s, bs)[j].value)
  {
    NoSgvPassedTwice(s, bs);
  }

  /** A fresh process starts from the mark 0, so no sgv dated at or before the epoch
      is ever passed. */
  lemma FreshRunPassesOnlyAfterEpoch(bs: seq<seq<Entry>>)
    ensures forall k :: 0 <= k < |bs| ==> SgvsAbove(Outputs(Initial, bs)[k], 0)
  {
  }
}
