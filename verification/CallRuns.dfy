/** Runs of service calls over the stores, one call at a time, for any service that follows TitleCache. */
module CallRuns {
  import opened TitleCache

  /** Which calls are allowed in a state, the writes each one makes, and the aggregate it publishes. */
  datatype Service<!C(!new), !R(!new), !A(!new)> = Service(
    ghost legal: (World<R, A>, C) -> bool,
    ghost steps: (World<R, A>, C) -> seq<Step<R>>,
    ghost agg: map<RowKey, R> -> A)
  {
    ghost function After(w: World<R, A>, c: C): World<R, A> {
      Run(w, steps(w, c), agg)
    }

    ghost function RunCalls(w: World<R, A>, calls: seq<C>): World<R, A> {
      if |calls| == 0 then w
      else After(RunCalls(w, calls[..|calls| - 1]), calls[|calls| - 1])
    }

    /** The state the `i`th call starts in. */
    ghost function Before(w: World<R, A>, calls: seq<C>, i: nat): World<R, A>
      requires i <= |calls|
    {
      RunCalls(w, calls[..i])
    }

    ghost predicate LegalRun(w: World<R, A>, calls: seq<C>) {
      forall i :: 0 <= i < |calls| ==> legal(Before(w, calls, i), calls[i])
    }

    /** A legal call from well-keyed stores makes only possible writes. */
    ghost predicate Sane() {
      forall w: World<R, A>, c: C :: WellKeyed(w) && legal(w, c) ==> Possible(w, steps(w, c), agg)
    }

    /** The `i`th call stored a row under the title and did not overwrite the entry after it. */
    ghost predicate FailedAt(w: World<R, A>, calls: seq<C>, i: nat, title: Title)
      requires i < |calls|
    {
      Pending(Before(w, calls, i), steps(Before(w, calls, i), calls[i]), title, agg)
    }

    ghost predicate OverwrittenAt(w: World<R, A>, calls: seq<C>, j: nat, title: Title)
      requires j < |calls|
    {
      Publishes(steps(Before(w, calls, j), calls[j]), title)
    }

    /** Some call failed half-way and no later call has overwritten the entry of its title. */
    ghost predicate LeftStale(w: World<R, A>, calls: seq<C>, title: Title) {
      exists i :: 0 <= i < |calls| && FailedAt(w, calls, i, title)
        && forall j :: i < j < |calls| ==> !OverwrittenAt(w, calls, j, title)
    }

    lemma BeforePrefix(w: World<R, A>, calls: seq<C>, i: nat)
      requires i < |calls|
      ensures Before(w, calls[..|calls| - 1], i) == Before(w, calls, i)
    {
      assert calls[..|calls| - 1][..i] == calls[..i];
    }

    lemma PrefixLegal(w: World<R, A>, calls: seq<C>)
      requires |calls| > 0 && LegalRun(w, calls)
      ensures LegalRun(w, calls[..|calls| - 1])
      ensures legal(RunCalls(w, calls[..|calls| - 1]), calls[|calls| - 1])
    {
      var before := calls[..|calls| - 1];
      forall i | 0 <= i < |before| ensures legal(Before(w, before, i), before[i]) {
        BeforePrefix(w, calls, i);
      }
      assert Before(w, calls, |calls| - 1) == RunCalls(w, before);
    }

    lemma {:induction false} RunKeepsWellKeyed(w: World<R, A>, calls: seq<C>)
      requires Sane() && WellKeyed(w) && LegalRun(w, calls)
      ensures WellKeyed(RunCalls(w, calls))
      decreases |calls|
    {
      if |calls| > 0 {
        PrefixLegal(w, calls);
        RunKeepsWellKeyed(w, calls[..|calls| - 1]);
        var v := RunCalls(w, calls[..|calls| - 1]);
        RunKeepsKeys(v, steps(v, calls[|calls| - 1]), agg);
      }
    }

    lemma LeftStaleStays(w: World<R, A>, calls: seq<C>, title: Title)
      requires |calls| > 0 && LeftStale(w, calls[..|calls| - 1], title)
      requires !OverwrittenAt(w, calls, |calls| - 1, title)
      ensures LeftStale(w, calls, title)
    {
      var before := calls[..|calls| - 1];
      var i :| 0 <= i < |before| && FailedAt(w, before, i, title)
        && forall j :: i < j < |before| ==> !OverwrittenAt(w, before, j, title);
      BeforePrefix(w, calls, i);
      assert FailedAt(w, calls, i, title);
      forall j | i < j < |calls| ensures !OverwrittenAt(w, calls, j, title) {
        if j < |before| {
          BeforePrefix(w, calls, j);
          assert !OverwrittenAt(w, before, j, title);
        }
      }
    }

    lemma {:induction false} CurrentUnlessStale(w: World<R, A>, calls: seq<C>, title: Title)
      requires Sane() && WellKeyed(w) && w.cache == map[] && LegalRun(w, calls)
      requires !LeftStale(w, calls, title)
      ensures EntryCurrent(RunCalls(w, calls), title, agg)
      decreases |calls|
    {
      if |calls| > 0 {
        var before, c := calls[..|calls| - 1], calls[|calls| - 1];
        var v := RunCalls(w, before);
        PrefixLegal(w, calls);
        RunKeepsWellKeyed(w, before);
        assert Before(w, calls, |calls| - 1) == v;
        assert !FailedAt(w, calls, |calls| - 1, title);
        if !OverwrittenAt(w, calls, |calls| - 1, title) {
          if LeftStale(w, before, title) { LeftStaleStays(w, calls, title); }
          CurrentUnlessStale(w, before, title);
        }
        EntryCurrentUnlessPending(v, steps(v, c), title, agg);
      }
    }

    /**
     * In every run from an empty cache, whatever backend calls fail, a readable entry is the recount
     * over the title's events, unless a half-failed call has not been overwritten since.
     */
    lemma CacheIsRecount(w: World<R, A>, calls: seq<C>, title: Title)
      requires Sane() && WellKeyed(w) && w.cache == map[] && LegalRun(w, calls)
      ensures Coherent(RunCalls(w, calls), title, agg) || LeftStale(w, calls, title)
    {
      if !LeftStale(w, calls, title) {
        CurrentUnlessStale(w, calls, title);
      }
    }
  }
}
