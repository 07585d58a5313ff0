/** The incremental sgv filter of run.js: a dedup gate whose only state is the
    high-water mark `lastSgvDate`. It passes every non-sgv entry, passes an sgv only
    when its date is strictly above the mark, and then raises the mark to the
    largest date among the sgvs it passed. */
module SgvFilter {
  import opened Entries

  /** The state the closure in run.js captures: one integer. */
  datatype FilterState = FilterState(lastSgvDate: int)

  /** The mark a fresh process starts from. */
  const Initial: FilterState := FilterState(0)

  /** What one call returns: the entries to upload and the state for the next call. */
  datatype FilterResult = FilterResult(out: seq<Entry>, state: FilterState)

  /** The selection rule applied to a single entry. */
  predicate Keep(mark: int, e: Entry)
  {
    !e.Sgv? || e.date > mark
  }

  /** JavaScript's `Math.max` on two integers. */
  function Max(a: int, b: int): int
  {
    if a < b then b else a
  }

  /** The selection pass: the entries that `Keep` admits, in input order. */
  function Select(mark: int, es: seq<Entry>): (r: seq<Entry>)
    ensures |r| <= |es|
    ensures forall i :: 0 <= i < |r| ==> Keep(mark, r[i])
  {
    if es == [] then []
    else
      var last := es[|es| - 1];
      Select(mark, es[..|es| - 1]) + (if Keep(mark, last) then [last] else [])
  }

  /** Selection admits exactly what `Keep` admits: each selected entry comes from the
      input, and each input entry that `Keep` admits is selected. */
  lemma {:induction false} SelectMembers(mark: int, es: seq<Entry>)
    ensures forall i :: 0 <= i < |Select(mark, es)| ==> Select(mark, es)[i] in es
    ensures forall i :: 0 <= i < |es| && Keep(mark, es[i]) ==> es[i] in Select(mark, es)
    decreases |es|
  {
    if es != [] {
      var es' := es[..|es| - 1];
      SelectMembers(mark, es');
      assert forall i :: 0 <= i < |es'| ==> es'[i] == es[i];
    }
  }

  /** Selection keeps each admitted entry as many times as the input holds it, and
      drops every other entry altogether. */
  lemma {:induction false} SelectMultiset(mark: int, es: seq<Entry>)
    ensures forall e :: multiset(Select(mark, es))[e] == if Keep(mark, e) then multiset(es)[e] else 0
    decreases |es|
  {
    if es != [] {
      var es' := es[..|es| - 1];
      var last := es[|es| - 1];
      SelectMultiset(mark, es');
      assert es == es' + [last];
      assert multiset(es) == multiset(es') + multiset{last};
      if Keep(mark, last) {
        assert multiset(Select(mark, es)) == multiset(Select(mark, es')) + multiset{last};
      } else {
        assert Select(mark, es) == Select(mark, es');
      }
    }
  }

  /** The mark-update pass: fold `Math.max` over the dates of the sgvs of `es`,
      starting from `mark`. The result is the maximum of `mark` and those dates. */
  function RaiseMark(mark: int, es: seq<Entry>): (r: int)
    ensures r >= mark
    ensures SgvsAtMost(es, r)
    ensures r == mark || exists i :: 0 <= i < |es| && es[i].Sgv? && es[i].date == r
  {
    if es == [] then mark
    else
      var last := es[|es| - 1];
      var m := RaiseMark(mark, es[..|es| - 1]);
      if last.Sgv? then Max(m, last.date) else m
  }

  /** One call of the filter: select against the current mark, then raise the mark
      over the sgvs that were selected. */
  function Filter(s: FilterState, es: seq<Entry>): (r: FilterResult)
    ensures SgvsAbove(r.out, s.lastSgvDate)
    ensures SgvsAtMost(es, r.state.lastSgvDate)
    ensures IsSubsequence(r.out, es)
    ensures r.state.lastSgvDate >= s.lastSgvDate
    ensures r.state.lastSgvDate == RaiseMark(s.lastSgvDate, es)
  {
    var out := Select(s.lastSgvDate, es);
    SelectIsSubsequence(s.lastSgvDate, es);
    MarkOverKeptIsMarkOverAll(s.lastSgvDate, es);
    FilterResult(out, FilterState(RaiseMark(s.lastSgvDate, out)))
  }

  /** The same call written as run.js writes it: a `forEach` that pushes the
      admitted entries, then a second pass over the sgvs of the output. */
  method FilterRecentSgvs(s: FilterState, entries: seq<Entry>) returns (out: seq<Entry>, next: FilterState)
    ensures FilterResult(out, next) == Filter(s, entries)
  {
    out := [];
    var i := 0;
    while i < |entries|
      invariant 0 <= i <= |entries|
      invariant out == Select(s.lastSgvDate, entries[..i])
    {
      assert entries[..i + 1][..i] == entries[..i];
      if !entries[i].Sgv? || entries[i].date > s.lastSgvDate {
        out := out + [entries[i]];
      }
      i := i + 1;
    }
    assert entries[..i] == entries;
    var lastSgvDate := s.lastSgvDate;
    var j := 0;
    while j < |out|
      invariant 0 <= j <= |out|
      invariant lastSgvDate == RaiseMark(s.lastSgvDate, out[..j])
    {
      assert out[..j + 1][..j] == out[..j];
      if out[j].Sgv? {
        lastSgvDate := Max(lastSgvDate, out[j].date);
      }
      j := j + 1;
    }
    assert out[..j] == out;
    next := FilterState(lastSgvDate);
  }

  /** The selected entries form an order-preserving subsequence of the input. */
  lemma {:induction false} SelectIsSubsequence(mark: int, es: seq<Entry>)
    ensures IsSubsequence(Select(mark, es), es)
    decreases |es|
  {
    if es != [] {
      var es' := es[..|es| - 1];
      var last := es[|es| - 1];
      var prev := Select(mark, es');
      SelectIsSubsequence(mark, es');
      if Keep(mark, last) {
        var r := prev + [last];
        assert r[..|r| - 1] == prev;
      } else {
        assert Select(mark, es) == prev;
        SubsequenceOfPrefix(prev, es);
      }
    }
  }

  /** A subsequence of all but the last element is a subsequence of the whole. */
  lemma SubsequenceOfPrefix<T>(xs: seq<T>, ys: seq<T>)
    requires ys != []
    requires IsSubsequence(xs, ys[..|ys| - 1])
    ensures IsSubsequence(xs, ys)
  {
  }

  /** Selection never drops a non-sgv entry, nor reorders the non-sgv entries. */
  lemma {:induction false} SelectKeepsNonSgvs(mark: int, es: seq<Entry>)
    ensures NonSgvs(Select(mark, es)) == NonSgvs(es)
    decreases |es|
  {
    if es != [] {
      var es' := es[..|es| - 1];
      var last := es[|es| - 1];
      var prev := Select(mark, es');
      SelectKeepsNonSgvs(mark, es');
      if Keep(mark, last) {
        var r := prev + [last];
        assert r[..|r| - 1] == prev;
      } else {
        assert last.Sgv?;
        assert Select(mark, es) == prev;
      }
    }
  }

  /** Raising the mark over the selected sgvs gives the same mark as raising it over
      every sgv of the batch: the sgvs that selection drops have dates at most the
      mark, so none of them could have raised it. */
  lemma {:induction false} MarkOverKeptIsMarkOverAll(mark: int, es: seq<Entry>)
    ensures RaiseMark(mark, Select(mark, es)) == RaiseMark(mark, es)
  {
    var kept := Select(mark, es);
    SelectMembers(mark, es);
    var a, b := RaiseMark(mark, kept), RaiseMark(mark, es);
    if a != mark {
      var i :| 0 <= i < |kept| && kept[i].Sgv? && kept[i].date == a;
      var k :| 0 <= k < |es| && es[k] == kept[i];
      assert a <= b;
    }
    if b != mark {
      var k :| 0 <= k < |es| && es[k].Sgv? && es[k].date == b;
      if Keep(mark, es[k]) {
        var i :| 0 <= i < |kept| && kept[i] == es[k];
        assert b <= a;
      }
    }
  }

  /** When no sgv of the batch is above the mark, selection passes exactly the
      non-sgv entries. */
  lemma {:induction false} SelectWhenNothingNew(mark: int, es: seq<Entry>)
    requires SgvsAtMost(es, mark)
    ensures Select(mark, es) == NonSgvs(es)
    decreases |es|
  {
    if es != [] {
      SelectWhenNothingNew(mark, es[..|es| - 1]);
    }
  }

  /** The filter passes nothing exactly when the batch has no non-sgv entry and no
      sgv above the mark. */
  lemma EmptyOutputIffNothingNew(mark: int, es: seq<Entry>)
    ensures Select(mark, es) == [] <==> NonSgvs(es) == [] && SgvsAtMost(es, mark)
  {
  }

  /** Feeding the same batch a second time leaves the mark where the first call put it. */
  lemma RefeedKeepsMark(s: FilterState, es: seq<Entry>)
    ensures Filter(Filter(s, es).state, es).state == Filter(s, es).state
  {
  }

  /** Once the mark has been raised over a batch, selecting from that batch again
      passes exactly its non-sgv entries. */
  lemma SelectAfterRaiseIsNonSgvs(mark: int, es: seq<Entry>)
    ensures Select(RaiseMark(mark, es), es) == NonSgvs(es)
  {
    SelectWhenNothingNew(RaiseMark(mark, es), es);
  }

  /** Feeding the same batch a second time passes only its non-sgv entries. */
  lemma RefeedPassesOnlyNonSgvs(s: FilterState, es: seq<Entry>)
    ensures Filter(Filter(s, es).state, es).out == NonSgvs(es)
  {
    SelectAfterRaiseIsNonSgvs(s.lastSgvDate, es);
  }
}
