/** The pass that only counts tokens against the pass that fills them. */
module JsmnCounting {
  import opened JsmnSpec

  lemma StepCounts(js: string, cap: nat, st: State)
    requires st.WellFormed() && HasMore(js, st.pos) && Step(js, cap, st).Next?
    ensures var st' := Step(js, cap, st).st;
      CountStep(js, st.pos, |st.toks|) == CountResult(st'.pos, Ok(|st'.toks|))
  {
  }

  /** The fill pass and the counting pass read the same text: as long as the fill pass does not fail, the
      counting pass reaches the same position with one count for every token. */
  lemma {:induction false} CountFollowsFill(js: string, cap: nat, st: State)
    requires st.WellFormed()
    ensures var r := Run(js, cap, st);
      CountRun(js, st.pos, |st.toks|) == CountRun(js, r.st.pos, |r.st.toks|)
    decreases |js| - st.pos
  {
    if HasMore(js, st.pos) && Step(js, cap, st).Next? {
      StepCounts(js, cap, st);
      CountFollowsFill(js, cap, Step(js, cap, st).st);
    }
  }

  /** Whenever the fill pass succeeds, the counting pass returns the same number. */
  lemma CountIsExact(js: string, cap: nat, st: State)
    requires st.WellFormed() && Run(js, cap, st).outcome.Ok?
    ensures CountRun(js, st.pos, |st.toks|).outcome == Run(js, cap, st).outcome
  {
    CountFollowsFill(js, cap, st);
    FillStopsAtEnd(js, cap, st);
  }

  lemma {:induction false} FillStopsAtEnd(js: string, cap: nat, st: State)
    requires st.WellFormed()
    ensures var r := Run(js, cap, st);
      && (r.outcome.Ok? ==> !HasMore(js, r.st.pos))
      && (r.outcome == Err(NoMem) ==> HasMore(js, r.st.pos) && Step(js, cap, r.st) == Stop(NoMem))
    decreases |js| - st.pos
  {
    if HasMore(js, st.pos) && Step(js, cap, st).Next? {
      FillStopsAtEnd(js, cap, Step(js, cap, st).st);
    }
  }

  lemma NoMemCountsOneMore(js: string, cap: nat, st: State)
    requires st.WellFormed() && HasMore(js, st.pos) && Step(js, cap, st) == Stop(NoMem)
    ensures cap <= |st.toks|
    ensures CountRun(js, st.pos, |st.toks|).outcome.Ok? ==> CountRun(js, st.pos, |st.toks|).outcome.count > |st.toks|
  {
  }

  /** If the counting pass returns n, a fill pass runs out of tokens only below n; and where the text is
      accepted at all, it runs out of tokens at every capacity below n: n is the exact need. */
  lemma CountIsTheNeed(js: string, cap: nat)
    requires CountRun(js, 0, 0).outcome.Ok?
    ensures var n := CountRun(js, 0, 0).outcome.count;
      && (cap >= n ==> Run(js, cap, Init).outcome != Err(NoMem))
      && (Run(js, n, Init).outcome.Ok? ==> (Run(js, cap, Init).outcome == Err(NoMem) <==> cap < n))
  {
    var n := CountRun(js, 0, 0).outcome.count;
    CountFollowsFill(js, cap, Init);
    FillStopsAtEnd(js, cap, Init);
    var r := Run(js, cap, Init);
    if r.outcome == Err(NoMem) {
      NoMemCountsOneMore(js, cap, r.st);
    }
    if Run(js, n, Init).outcome.Ok? && cap < n {
      CountIsExact(js, n, Init);
      SmallerFill(js, cap, n, Init);
      StaysWithin(js, cap, Init);
    }
  }

  /** With fewer tokens the fill pass gives the same answer or reports NOMEM. */
  lemma {:induction false} SmallerFill(js: string, small: nat, large: nat, st: State)
    requires st.WellFormed() && small <= large
    ensures Run(js, small, st) == Run(js, large, st) || Run(js, small, st).outcome == Err(NoMem)
    decreases |js| - st.pos
  {
    if HasMore(js, st.pos) && Step(js, small, st).Next? {
      SmallerFill(js, small, large, Step(js, small, st).st);
    }
  }

  lemma {:induction false} StaysWithin(js: string, cap: nat, st: State)
    requires st.WellFormed() && |st.toks| <= cap
    ensures |Run(js, cap, st).st.toks| <= cap
    decreases |js| - st.pos
  {
    if HasMore(js, st.pos) && Step(js, cap, st).Next? {
      StaysWithin(js, cap, Step(js, cap, st).st);
    }
  }
}
