/** What the token array looks like after jsmn_parse, for every input: token starts increase, ranges are
    laminar, every range is delimited as its type says, and the size fields count every token once. */
module JsmnStructure {
  import opened JsmnSpec

  // --- delimiters ---------------------------------------------------------------------------------

  predicate CharAt(js: string, p: int, c: char) { 0 <= p < |js| && js[p] == c }

  /** One token against the text scanned so far (`js[..pos]`). */
  predicate Delimited(js: string, t: Token, pos: nat) {
    && 0 <= t.start < pos
    && (t.end == -1 ==> t.IsContainer())
    && (t.end != -1 ==> t.start <= t.end <= pos)
    && match t.kind {
         case Object => CharAt(js, t.start, '{') && (t.end != -1 ==> t.start + 1 < t.end && CharAt(js, t.end - 1, '}'))
         case Array => CharAt(js, t.start, '[') && (t.end != -1 ==> t.start + 1 < t.end && CharAt(js, t.end - 1, ']'))
         case String => CharAt(js, t.start - 1, '"') && CharAt(js, t.end, '"') && t.end < pos
         case Primitive => t.start < t.end
         case Undefined => false
       }
  }

  /** `later` was created after `earlier`: it lies behind it, or inside it when it is a container. */
  predicate Ordered(earlier: Token, later: Token) {
    && earlier.start < later.start
    && (earlier.end == -1
        || earlier.end <= later.start
        || (earlier.IsContainer() && later.end != -1 && later.end < earlier.end))
  }

  predicate AllDelimited(js: string, toks: seq<Token>, pos: nat) {
    forall i :: 0 <= i < |toks| ==> Delimited(js, toks[i], pos)
  }

  predicate Laminar(toks: seq<Token>) {
    forall i, j :: 0 <= i < j < |toks| ==> Ordered(toks[i], toks[j])
  }

  predicate Structured(js: string, st: State) {
    st.WellFormed() && st.pos <= |js| && AllDelimited(js, st.toks, st.pos) && Laminar(st.toks)
  }

  lemma BumpKeeps(js: string, st: State)
    requires Structured(js, st)
    ensures Structured(js, st.(toks := Bump(st.toks, st.toksuper)))
  {
    var toks := Bump(st.toks, st.toksuper);
    forall i, j | 0 <= i < j < |toks| ensures Ordered(toks[i], toks[j]) {
      assert Ordered(st.toks[i], st.toks[j]);
    }
  }

  /** A new token that starts at or behind the scan position goes behind everything created before. */
  lemma AppendKeeps(js: string, st: State, tok: Token, pos: nat, super: int)
    requires Structured(js, st) && st.pos < pos <= |js|
    requires Delimited(js, tok, pos) && st.pos <= tok.start
    requires -1 <= super <= |st.toks|
    ensures Structured(js, State(pos, super, st.toks + [tok]))
  {
    forall i | 0 <= i < |st.toks| ensures Ordered(st.toks[i], tok) {
      assert Delimited(js, st.toks[i], st.pos);
    }
  }

  lemma CloseKeeps(js: string, st: State, kind: TokenType)
    requires Structured(js, st) && CloseStep(st, kind).Next?
    requires (kind == Object && CharAt(js, st.pos, '}')) || (kind == Array && CharAt(js, st.pos, ']'))
    ensures Structured(js, CloseStep(st, kind).st)
  {
    var i := LastOpen(st.toks, |st.toks|);
    ClosedAboveLastOpen(st.toks, |st.toks|);
    var toks := CloseStep(st, kind).st.toks;
    assert Delimited(js, st.toks[i], st.pos);
    forall k | 0 <= k < |toks| ensures Delimited(js, toks[k], st.pos + 1) {
      assert Delimited(js, st.toks[k], st.pos);
    }
    forall k, j | 0 <= k < j < |toks| ensures Ordered(toks[k], toks[j]) {
      assert Ordered(st.toks[k], st.toks[j]);
      assert Delimited(js, st.toks[j], st.pos);
    }
  }

  lemma StepKeepsStructure(js: string, cap: nat, st: State)
    requires Structured(js, st) && HasMore(js, st.pos) && Step(js, cap, st).Next?
    ensures Structured(js, Step(js, cap, st).st)
  {
    var c := js[st.pos];
    var st' := Step(js, cap, st).st;
    BumpKeeps(js, st);
    var bumped := st.(toks := Bump(st.toks, st.toksuper));
    if c == '}' {
      CloseKeeps(js, st, Object);
    } else if c == ']' {
      CloseKeeps(js, st, Array);
    } else if |st'.toks| > |st.toks| {
      var tok := st'.toks[|st.toks|];
      AppendKeeps(js, bumped, tok, st'.pos, st'.toksuper);
    } else {
      assert st'.toks == st.toks;
      forall i | 0 <= i < |st.toks| ensures Delimited(js, st.toks[i], st'.pos) {
        assert Delimited(js, st.toks[i], st.pos);
      }
    }
  }

  lemma {:induction false} RunKeepsStructure(js: string, cap: nat, st: State)
    requires Structured(js, st)
    ensures Structured(js, Run(js, cap, st).st)
    decreases |js| - st.pos
  {
    if HasMore(js, st.pos) && Step(js, cap, st).Next? {
      StepKeepsStructure(js, cap, st);
      RunKeepsStructure(js, cap, Step(js, cap, st).st);
    }
  }

  // --- the main result on shape ---------------------------------------------------------------------

  predicate Disjoint(a: Token, b: Token) { a.end <= b.start || b.end <= a.start }

  predicate Inside(inner: Token, outer: Token) {
    outer.IsContainer() && outer.start < inner.start <= inner.end < outer.end
  }

  /** Every successful parse, whatever the input and however often it was restarted: the tokens are closed,
      sorted by start, pairwise disjoint or nested in a container, and delimited as their type says. */
  lemma ParseIsLaminar(js: string, cap: nat, st: State)
    requires Structured(js, st) && Run(js, cap, st).outcome.Ok?
    ensures var toks := Run(js, cap, st).st.toks;
      && |toks| == Run(js, cap, st).outcome.count
      && (forall i :: 0 <= i < |toks| ==> Delimited(js, toks[i], |js|) && 0 <= toks[i].start <= toks[i].end <= |js|)
      && (forall i, j :: 0 <= i < j < |toks| ==>
            toks[i].start < toks[j].start && (Disjoint(toks[i], toks[j]) || Inside(toks[j], toks[i])))
  {
    RunKeepsStructure(js, cap, st);
    RunStops(js, cap, st);
    var r := Run(js, cap, st);
    forall i | 0 <= i < |r.st.toks|
      ensures Delimited(js, r.st.toks[i], |js|) && 0 <= r.st.toks[i].start <= r.st.toks[i].end <= |js|
    {
      assert Delimited(js, r.st.toks[i], r.st.pos);
      assert !r.st.toks[i].IsOpen();
    }
    forall i, j | 0 <= i < j < |r.st.toks|
      ensures r.st.toks[i].start < r.st.toks[j].start
      ensures Disjoint(r.st.toks[i], r.st.toks[j]) || Inside(r.st.toks[j], r.st.toks[i])
    {
      assert Ordered(r.st.toks[i], r.st.toks[j]);
    }
  }

  /** A run that does not fail in a step ends where the input does; success leaves nothing open. */
  lemma {:induction false} RunStops(js: string, cap: nat, st: State)
    requires st.WellFormed()
    ensures var r := Run(js, cap, st);
      && (st.pos <= |js| ==> r.st.pos <= |js|)
      && (r.outcome.Ok? ==> !HasMore(js, r.st.pos) && forall i :: 0 <= i < |r.st.toks| ==> !r.st.toks[i].IsOpen())
    decreases |js| - st.pos
  {
    ClosedAboveLastOpen(st.toks, |st.toks|);
    if HasMore(js, st.pos) && Step(js, cap, st).Next? {
      RunStops(js, cap, Step(js, cap, st).st);
    }
  }

  // --- the capacity and the size fields ---------------------------------------------------------------

  function SumSizes(toks: seq<Token>): int {
    if toks == [] then 0 else SumSizes(toks[..|toks| - 1]) + toks[|toks| - 1].size
  }

  /** How many tokens a run creates while there is no superior token: the roots of the document. */
  function Roots(js: string, cap: nat, st: State): nat
    requires st.WellFormed()
    decreases |js| - st.pos
  {
    if HasMore(js, st.pos) && Step(js, cap, st).Next? then
      var st' := Step(js, cap, st).st;
      (if |st'.toks| > |st.toks| && st.toksuper == -1 then 1 else 0) + Roots(js, cap, st')
    else 0
  }

  lemma {:induction false} SumOfUpdate(toks: seq<Token>, i: nat, t: Token)
    requires i < |toks|
    ensures SumSizes(toks[i := t]) == SumSizes(toks) - toks[i].size + t.size
  {
    var n := |toks| - 1;
    if i < n {
      assert toks[i := t][..n] == toks[..n][i := t];
      SumOfUpdate(toks[..n], i, t);
    } else {
      assert toks[i := t][..n] == toks[..n];
    }
  }

  lemma StepSizes(js: string, cap: nat, st: State)
    requires st.WellFormed() && HasMore(js, st.pos) && Step(js, cap, st).Next?
    ensures var st' := Step(js, cap, st).st;
      SumSizes(st'.toks) - SumSizes(st.toks) + (if |st'.toks| > |st.toks| && st.toksuper == -1 then 1 else 0)
        == |st'.toks| - |st.toks|
  {
    var st' := Step(js, cap, st).st;
    if |st'.toks| > |st.toks| {
      var bumped := Bump(st.toks, st.toksuper);
      assert st'.toks[..|st.toks|] == bumped;
      if st.toksuper != -1 {
        SumOfUpdate(st.toks, st.toksuper, bumped[st.toksuper]);
      }
    } else if js[st.pos] == '}' || js[st.pos] == ']' {
      var i := LastOpen(st.toks, |st.toks|);
      SumOfUpdate(st.toks, i, st.toks[i].(end := st.pos + 1));
    }
  }

  /** The size fields account for every token: each token created by a run is counted in exactly one size
      field or is a root.  The capacity is never exceeded. */
  lemma {:induction false} SizesAccountForTokens(js: string, cap: nat, st: State)
    requires st.WellFormed() && |st.toks| <= cap
    ensures var st' := Run(js, cap, st).st;
      && |st'.toks| <= cap
      && SumSizes(st'.toks) - SumSizes(st.toks) + Roots(js, cap, st) == |st'.toks| - |st.toks|
    decreases |js| - st.pos
  {
    if HasMore(js, st.pos) && Step(js, cap, st).Next? {
      StepSizes(js, cap, st);
      SizesAccountForTokens(js, cap, Step(js, cap, st).st);
    }
  }
}
