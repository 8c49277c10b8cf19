/** Restarting jsmn_parse on the same parser: after running out of tokens, and after running out of input. */
module JsmnRestart {
  import opened JsmnSpec

  // --- more tokens ------------------------------------------------------------------------------------

  lemma StepWithMoreTokens(js: string, small: nat, large: nat, st: State)
    requires st.WellFormed() && HasMore(js, st.pos) && small <= large
    requires Step(js, small, st) != Stop(NoMem)
    ensures Step(js, large, st) == Step(js, small, st)
  {
  }

  /** A parse that ran out of tokens left the parser at a loop head of the parse with the larger array:
      calling again with that array gives the result and the state of parsing with it from the start. */
  lemma {:induction false} RestartIsOneShot(js: string, small: nat, large: nat, st: State)
    requires st.WellFormed() && small <= large
    ensures var first := Run(js, small, st);
      if first.outcome == Err(NoMem) then Run(js, large, first.st) == Run(js, large, st)
      else first == Run(js, large, st)
    decreases |js| - st.pos
  {
    if HasMore(js, st.pos) {
      match Step(js, small, st) {
        case Stop(e) =>
          if e != NoMem { StepWithMoreTokens(js, small, large, st); }
        case Next(st') =>
          StepWithMoreTokens(js, small, large, st);
          RestartIsOneShot(js, small, large, st');
      }
    }
  }

  /** Calling again and again with larger and larger arrays, until the answer is not NOMEM. */
  function RetryAll(js: string, caps: seq<nat>, st: State): (r: RunResult)
    requires st.WellFormed() && caps != []
    decreases |caps|
  {
    var first := Run(js, caps[0], st);
    if first.outcome == Err(NoMem) && |caps| > 1 then RetryAll(js, caps[1..], first.st) else first
  }

  predicate Growing(caps: seq<nat>) { forall i, j :: 0 <= i < j < |caps| ==> caps[i] <= caps[j] }

  /** Any number of restarts with growing arrays ends as the one parse with the last array would. */
  lemma {:induction false} RetriesAreOneShot(js: string, caps: seq<nat>, st: State)
    requires st.WellFormed() && caps != [] && Growing(caps)
    ensures RetryAll(js, caps, st) == Run(js, caps[|caps| - 1], st)
    decreases |caps|
  {
    RestartIsOneShot(js, caps[0], caps[|caps| - 1], st);
    if |caps| > 1 && Run(js, caps[0], st).outcome == Err(NoMem) {
      RetriesAreOneShot(js, caps[1..], Run(js, caps[0], st).st);
    }
  }

  // --- more input -------------------------------------------------------------------------------------

  predicate ContinuesPrimitive(rest: string) { HasMore(rest, 0) && !IsDelimiter(rest[0]) }

  /** The text was cut inside a primitive: the last token is a primitive that ends at the cut, and the
      rest does not start with a character that ends a primitive. */
  predicate CutInPrimitive(js: string, rest: string, st: State) {
    && st.pos == |js|
    && st.toks != []
    && st.toks[|st.toks| - 1].kind == Primitive
    && st.toks[|st.toks| - 1].end == |js|
    && ContinuesPrimitive(rest)
  }

  lemma {:induction false} ScanHexExtends(js: string, rest: string, p: nat, k: nat)
    requires p <= |js| && ScanHex(js, p, k).Found?
    requires ScanHex(js, p, k).at < |js|
    ensures ScanHex(js + rest, p, k) == ScanHex(js, p, k)
    decreases k
  {
    if k > 0 && HasMore(js, p) {
      ScanHexExtends(js, rest, p + 1, k - 1);
    }
  }

  lemma {:induction false} ScanHexFails(js: string, rest: string, p: nat, k: nat)
    requires ScanHex(js, p, k).Bad?
    ensures ScanHex(js + rest, p, k) == ScanHex(js, p, k)
    decreases k
  {
    if k > 0 && HasMore(js, p) && IsHex(js[p]) {
      ScanHexFails(js, rest, p + 1, k - 1);
    }
  }

  /** A string whose closing quote, or whose error, was seen scans the same when text is added. */
  lemma {:induction false} ScanStringExtends(js: string, rest: string, p: nat)
    requires ScanString(js, p) != Bad(Part)
    ensures ScanString(js + rest, p) == ScanString(js, p)
    decreases |js| - p
  {
    var whole := js + rest;
    assert HasMore(js, p) && whole[p] == js[p];
    if js[p] == '\\' && p + 1 < |js| {
      assert whole[p + 1] == js[p + 1];
      var e := ScanEscape(js, p);
      if e.Bad? {
        if js[p + 1] == 'u' { ScanHexFails(js, rest, p + 2, 4); }
      } else {
        assert e.at < |js|;
        if js[p + 1] == 'u' { ScanHexExtends(js, rest, p + 2, 4); }
        ScanStringExtends(js, rest, e.at);
      }
    } else if js[p] != '"' {
      assert p + 1 < |js|;
      ScanStringExtends(js, rest, p + 1);
    }
  }

  lemma {:induction false} ScanPrimitiveExtends(js: string, rest: string, p: nat)
    requires p <= |js|
    requires ScanPrimitive(js, p) == Found(|js|) ==> !ContinuesPrimitive(rest)
    ensures ScanPrimitive(js + rest, p) == ScanPrimitive(js, p)
    decreases |js| - p
  {
    if p < |js| {
      if HasMore(js, p) && !IsDelimiter(js[p]) && IsPrintable(js[p]) {
        ScanPrimitiveExtends(js, rest, p + 1);
      }
    } else if rest != [] {
      assert (js + rest)[p] == rest[0];
    }
  }

  lemma {:induction false} ScanPrimitiveGoesOn(js: string, rest: string, p: nat)
    requires p <= |js| && ScanPrimitive(js, p) == Found(|js|) && ContinuesPrimitive(rest)
    ensures ScanPrimitive(js + rest, p).Found? ==> ScanPrimitive(js + rest, p).at > |js|
    decreases |js| - p
  {
    if p < |js| {
      ScanPrimitiveGoesOn(js, rest, p + 1);
    } else {
      assert (js + rest)[p] == rest[0];
    }
  }

  predicate IsPrimitiveStart(c: char) {
    c != '{' && c != '[' && c != '"' && !IsDelimiter(c)
  }

  lemma StepExtends(js: string, rest: string, cap: nat, st: State)
    requires st.WellFormed() && HasMore(js, st.pos)
    requires Step(js, cap, st) != Stop(Part)
    requires IsPrimitiveStart(js[st.pos]) && ScanPrimitive(js, st.pos) == Found(|js|) ==> !ContinuesPrimitive(rest)
    ensures Step(js + rest, cap, st) == Step(js, cap, st)
  {
    var c := js[st.pos];
    assert (js + rest)[st.pos] == c;
    if c == '"' {
      ScanStringExtends(js, rest, st.pos + 1);
    } else if IsPrimitiveStart(c) {
      ScanPrimitiveExtends(js, rest, st.pos);
    }
  }

  /** A token that is closed keeps its type and its bounds for the rest of the parse. */
  lemma {:induction false} RunKeepsClosed(js: string, cap: nat, st: State, i: nat)
    requires st.WellFormed() && i < |st.toks| && !st.toks[i].IsOpen()
    ensures var t := Run(js, cap, st).st.toks[i];
      t.kind == st.toks[i].kind && t.start == st.toks[i].start && t.end == st.toks[i].end
    decreases |js| - st.pos
  {
    if HasMore(js, st.pos) && Step(js, cap, st).Next? {
      RunKeepsClosed(js, cap, Step(js, cap, st).st, i);
    }
  }

  lemma CutPrimitiveDiffers(js: string, rest: string, cap: nat, st: State)
    requires st.WellFormed() && HasMore(js, st.pos) && IsPrimitiveStart(js[st.pos])
    requires ScanPrimitive(js, st.pos) == Found(|js|) && ContinuesPrimitive(rest) && |st.toks| < cap
    ensures Run(js + rest, cap, Step(js, cap, st).st).st != Run(js + rest, cap, st).st
  {
    var cut := Step(js, cap, st).st;
    var n := |st.toks|;
    assert cut.toks[n] == Token(Primitive, st.pos, |js|, 0);
    RunKeepsClosed(js + rest, cap, cut, n);
    assert (js + rest)[st.pos] == js[st.pos];
    ScanPrimitiveGoesOn(js, rest, st.pos);
    var q := ScanPrimitive(js + rest, st.pos);
    if q.Found? {
      var whole := Step(js + rest, cap, st).st;
      assert whole.toks[n] == Token(Primitive, st.pos, q.at, 0);
      RunKeepsClosed(js + rest, cap, whole, n);
    }
  }

  /** The error PART announces that more bytes are expected.  Once they have arrived, the second call on the
      same parser agrees with one call on the whole text if and only if the text was not cut in a primitive. */
  lemma ResumeIsOneShot(js: string, rest: string, cap: nat)
    requires Run(js, cap, Init).outcome == Err(Part)
    ensures var cut := Run(js, cap, Init).st;
      && (Run(js + rest, cap, cut) == Run(js + rest, cap, Init) <==> !CutInPrimitive(js, rest, cut))
      && (Run(js + rest, cap, cut).st == Run(js + rest, cap, Init).st <==> !CutInPrimitive(js, rest, cut))
  {
    ResumeFrom(js, rest, cap, Init);
  }

  predicate EndsBefore(toks: seq<Token>, pos: nat) {
    forall i :: 0 <= i < |toks| ==> toks[i].end <= pos
  }

  lemma {:induction false} ResumeFrom(js: string, rest: string, cap: nat, st: State)
    requires st.WellFormed() && st.pos <= |js| && EndsBefore(st.toks, st.pos)
    requires st.pos == |js| ==> !CutInPrimitive(js, rest, st)
    requires Run(js, cap, st).outcome == Err(Part)
    ensures var cut := Run(js, cap, st).st;
      && (CutInPrimitive(js, rest, cut) ==> Run(js + rest, cap, cut).st != Run(js + rest, cap, st).st)
      && (!CutInPrimitive(js, rest, cut) ==> Run(js + rest, cap, cut) == Run(js + rest, cap, st))
    decreases |js| - st.pos
  {
    if HasMore(js, st.pos) && Step(js, cap, st).Next? {
      var st' := Step(js, cap, st).st;
      assert EndsBefore(st'.toks, st'.pos);
      if IsPrimitiveStart(js[st.pos]) && ScanPrimitive(js, st.pos) == Found(|js|) && ContinuesPrimitive(rest) {
        CutPrimitiveDiffers(js, rest, cap, st);
      } else {
        StepExtends(js, rest, cap, st);
        assert (js + rest)[st.pos] == js[st.pos];
        ResumeFrom(js, rest, cap, st');
      }
    }
  }

  /** The states of the two parses behind the first chunk `[12`. */
  lemma CutAfterTwelve()
    ensures Run("[12", 8, Init) ==
            RunResult(State(3, 0, [Token(Array, 0, -1, 1), Token(Primitive, 1, 3, 0)]), Err(Part))
  {
    var js := "[12";
    var s1 := State(1, 0, [Token(Array, 0, -1, 0)]);
    assert Step(js, 8, Init) == Next(s1);
    assert ScanPrimitive(js, 1) == Found(3) by { assert ScanPrimitive(js, 2) == Found(3); }
    var s2 := State(3, 0, [Token(Array, 0, -1, 1), Token(Primitive, 1, 3, 0)]);
    assert Step(js, 8, s1) == Next(s2);
    assert s2.toks[0].IsOpen();
    assert Run(js, 8, s2) == RunResult(s2, Err(Part));
    assert Run(js, 8, s1) == Run(js, 8, s2);
  }

  lemma ResumedAtThree()
    ensures Run("[123]", 8, State(3, 0, [Token(Array, 0, -1, 1), Token(Primitive, 1, 3, 0)])) ==
            RunResult(State(5, -1, [Token(Array, 0, 5, 2), Token(Primitive, 1, 3, 0), Token(Primitive, 3, 4, 0)]),
                      Ok(3))
  {
    var js := "[123]";
    var s2 := State(3, 0, [Token(Array, 0, -1, 1), Token(Primitive, 1, 3, 0)]);
    var s3 := State(4, 0, [Token(Array, 0, -1, 2), Token(Primitive, 1, 3, 0), Token(Primitive, 3, 4, 0)]);
    assert ScanPrimitive(js, 3) == Found(4);
    assert Step(js, 8, s2) == Next(s3);
    var s4 := State(5, -1, [Token(Array, 0, 5, 2), Token(Primitive, 1, 3, 0), Token(Primitive, 3, 4, 0)]);
    assert LastOpen(s3.toks, 3) == 0 by { assert LastOpen(s3.toks, 1) == 0; }
    assert Step(js, 8, s3) == Next(s4);
    assert Run(js, 8, s4) == RunResult(s4, Ok(3)) by { ClosedAboveLastOpen(s4.toks, 3); }
    assert Run(js, 8, s3) == Run(js, 8, s4);
  }

  lemma WholeAtOnce()
    ensures Run("[123]", 8, Init) ==
            RunResult(State(5, -1, [Token(Array, 0, 5, 1), Token(Primitive, 1, 4, 0)]), Ok(2))
  {
    var js := "[123]";
    var s1 := State(1, 0, [Token(Array, 0, -1, 0)]);
    assert Step(js, 8, Init) == Next(s1);
    assert ScanPrimitive(js, 1) == Found(4) by {
      assert ScanPrimitive(js, 3) == Found(4);
      assert ScanPrimitive(js, 2) == Found(4);
    }
    var s2 := State(4, 0, [Token(Array, 0, -1, 1), Token(Primitive, 1, 4, 0)]);
    assert Step(js, 8, s1) == Next(s2);
    var s3 := State(5, -1, [Token(Array, 0, 5, 1), Token(Primitive, 1, 4, 0)]);
    assert Step(js, 8, s2) == Next(s3);
    assert Run(js, 8, s3) == RunResult(s3, Ok(2));
    assert Run(js, 8, s2) == Run(js, 8, s3);
    assert Run(js, 8, s1) == Run(js, 8, s2);
  }

  /** The cut is real: `[12` and then `3]` gives two primitives where `[123]` gives one. */
  lemma CutPrimitiveExample()
    ensures var cut := Run("[12", 8, Init).st;
      && Run("[12", 8, Init).outcome == Err(Part)
      && CutInPrimitive("[12", "3]", cut)
      && Run("[12" + "3]", 8, cut).st.toks ==
         [Token(Array, 0, 5, 2), Token(Primitive, 1, 3, 0), Token(Primitive, 3, 4, 0)]
      && Run("[12" + "3]", 8, Init).st.toks == [Token(Array, 0, 5, 1), Token(Primitive, 1, 4, 0)]
  {
    CutAfterTwelve();
    ResumedAtThree();
    WholeAtOnce();
    assert "[12" + "3]" == "[123]";
    assert "3]"[0] == '3';
  }
}
