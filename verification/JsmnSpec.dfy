/** The tokenizer of sources/utility/jsmn.c as a step relation on values.

    A `State` is the parser struct together with the part of the token array that is in use, so
    `toknext` is `|toks|`; the capacity of the array is a parameter of every step.  `Run` is the
    token-filling mode, `CountRun` the mode in which no token array is passed.  The input is a string
    whose length is the `len` argument of the C function: every index of it that is read is checked. */
module JsmnSpec {

  datatype TokenType = Undefined | Object | Array | String | Primitive

  datatype Token = Token(kind: TokenType, start: int, end: int, size: int) {
    predicate IsOpen() { start != -1 && end == -1 }
    predicate IsContainer() { kind == Object || kind == Array }
  }

  datatype Error = NoMem | Inval | Part
  datatype Outcome = Ok(count: nat) | Err(error: Error)
  datatype Scan = Found(at: nat) | Bad(error: Error)

  datatype State = State(pos: nat, toksuper: int, toks: seq<Token>) {
    predicate WellFormed() { -1 <= toksuper < |toks| }
  }

  const Init := State(0, -1, [])

  // --- characters -----------------------------------------------------------------------------

  predicate IsBlank(c: char) { c == '\t' || c == '\r' || c == '\n' || c == ' ' }

  /** The characters that end a primitive outside strict mode. */
  predicate IsDelimiter(c: char) { IsBlank(c) || c == ':' || c == ',' || c == ']' || c == '}' }

  predicate IsHex(c: char) { '0' <= c <= '9' || 'A' <= c <= 'F' || 'a' <= c <= 'f' }

  predicate IsEscape(c: char) {
    c == '"' || c == '/' || c == '\\' || c == 'b' || c == 'f' || c == 'r' || c == 'n' || c == 't'
  }

  predicate IsPrintable(c: char) { 32 as char <= c < 127 as char }

  /** The scan goes on: there is a byte left and it is not the terminator. */
  predicate HasMore(js: string, p: nat) { p < |js| && js[p] != '\0' }

  // --- scanning one lexeme ----------------------------------------------------------------------

  /** From `p` inside a primitive to the position of the character that ends it. */
  function ScanPrimitive(js: string, p: nat): (r: Scan)
    ensures r.Found? ==> r.at >= p && (p <= |js| ==> r.at <= |js|)
    ensures r.Bad? ==> r.error == Inval
    decreases |js| - p
  {
    if !HasMore(js, p) || IsDelimiter(js[p]) then Found(p)
    else if !IsPrintable(js[p]) then Bad(Inval)
    else ScanPrimitive(js, p + 1)
  }

  /** Up to `k` hexadecimal digits; fewer only when the input stops. */
  function ScanHex(js: string, p: nat, k: nat): (r: Scan)
    ensures r.Found? ==> r.at >= p && (p <= |js| ==> r.at <= |js|)
    ensures r.Bad? ==> r.error == Inval
    decreases k
  {
    if k == 0 || !HasMore(js, p) then Found(p)
    else if !IsHex(js[p]) then Bad(Inval)
    else ScanHex(js, p + 1, k - 1)
  }

  /** From a backslash at `p` to the position behind its escape sequence. */
  function ScanEscape(js: string, p: nat): (r: Scan)
    requires p + 1 < |js|
    ensures r.Found? ==> p + 2 <= r.at <= |js|
    ensures r.Bad? ==> r.error == Inval
  {
    if IsEscape(js[p + 1]) then Found(p + 2)
    else if js[p + 1] == 'u' then ScanHex(js, p + 2, 4)
    else Bad(Inval)
  }

  /** From `p` inside a string to the position of its closing quote. */
  function ScanString(js: string, p: nat): (r: Scan)
    ensures r.Found? ==> p <= r.at < |js| && js[r.at] == '"'
    ensures r.Bad? ==> r.error == Inval || r.error == Part
    decreases |js| - p
  {
    if !HasMore(js, p) then Bad(Part)
    else if js[p] == '"' then Found(p)
    else if js[p] == '\\' && p + 1 < |js| then
      var e := ScanEscape(js, p);
      if e.Bad? then e else ScanString(js, e.at)
    else ScanString(js, p + 1)
  }

  // --- the open containers ----------------------------------------------------------------------

  /** The last open token below `n`, or -1: the loop that a closing bracket starts with. */
  function LastOpen(toks: seq<Token>, n: nat): (i: int)
    requires n <= |toks|
    ensures -1 <= i < n
    ensures i >= 0 ==> toks[i].IsOpen()
  {
    if n == 0 then -1 else if toks[n - 1].IsOpen() then n - 1 else LastOpen(toks, n - 1)
  }

  lemma {:induction false} ClosedAboveLastOpen(toks: seq<Token>, n: nat)
    requires n <= |toks|
    ensures forall k :: LastOpen(toks, n) < k < n ==> !toks[k].IsOpen()
  {
    if n > 0 && !toks[n - 1].IsOpen() {
      ClosedAboveLastOpen(toks, n - 1);
    }
  }

  /** The last open object or array below `n`, or -1: the loop that a comma starts. */
  function LastOpenContainer(toks: seq<Token>, n: nat): (i: int)
    requires n <= |toks|
    ensures -1 <= i < n
    ensures i >= 0 ==> toks[i].IsOpen() && toks[i].IsContainer()
  {
    if n == 0 then -1
    else if toks[n - 1].IsOpen() && toks[n - 1].IsContainer() then n - 1
    else LastOpenContainer(toks, n - 1)
  }

  /** `tokens[toksuper].size++`, when there is a superior token. */
  function Bump(toks: seq<Token>, super: int): (r: seq<Token>)
    requires -1 <= super < |toks|
    ensures |r| == |toks|
  {
    if super == -1 then toks else toks[super := toks[super].(size := toks[super].size + 1)]
  }

  // --- one round of the main loop -----------------------------------------------------------------

  datatype StepResult = Next(st: State) | Stop(error: Error)

  function OpenStep(cap: nat, st: State, kind: TokenType): (r: StepResult)
    requires st.WellFormed()
  {
    if |st.toks| >= cap then Stop(NoMem)
    else Next(State(st.pos + 1, |st.toks|, Bump(st.toks, st.toksuper) + [Token(kind, st.pos, -1, 0)]))
  }

  function CloseStep(st: State, kind: TokenType): (r: StepResult)
    requires st.WellFormed()
  {
    var i := LastOpen(st.toks, |st.toks|);
    if i == -1 || st.toks[i].kind != kind then Stop(Inval)
    else
      var toks := st.toks[i := st.toks[i].(end := st.pos + 1)];
      Next(State(st.pos + 1, LastOpen(toks, i + 1), toks))
  }

  function CommaStep(st: State): (r: StepResult)
    requires st.WellFormed()
  {
    var i := LastOpenContainer(st.toks, |st.toks|);
    var super := if st.toksuper != -1 && !st.toks[st.toksuper].IsContainer() && i != -1 then i else st.toksuper;
    Next(State(st.pos + 1, super, st.toks))
  }

  /** A lexeme that becomes one token `[start, end)`; the scan goes on at `pos`. */
  function LexemeStep(cap: nat, st: State, tok: Token, pos: nat): (r: StepResult)
    requires st.WellFormed()
  {
    if |st.toks| >= cap then Stop(NoMem)
    else Next(State(pos, st.toksuper, Bump(st.toks, st.toksuper) + [tok]))
  }

  function StringStep(js: string, cap: nat, st: State): (r: StepResult)
    requires st.WellFormed()
  {
    match ScanString(js, st.pos + 1)
    case Bad(e) => Stop(e)
    case Found(q) => LexemeStep(cap, st, Token(String, st.pos + 1, q, 0), q + 1)
  }

  function PrimitiveStep(js: string, cap: nat, st: State): (r: StepResult)
    requires st.WellFormed()
  {
    match ScanPrimitive(js, st.pos)
    case Bad(e) => Stop(e)
    case Found(q) => LexemeStep(cap, st, Token(Primitive, st.pos, q, 0), q)
  }

  function Step(js: string, cap: nat, st: State): (r: StepResult)
    requires st.WellFormed() && HasMore(js, st.pos)
    ensures r.Next? ==> r.st.WellFormed() && st.pos < r.st.pos <= |js| && |st.toks| <= |r.st.toks| <= |st.toks| + 1
  {
    var c := js[st.pos];
    if c == '{' then OpenStep(cap, st, Object)
    else if c == '[' then OpenStep(cap, st, Array)
    else if c == '}' then CloseStep(st, Object)
    else if c == ']' then CloseStep(st, Array)
    else if c == '"' then StringStep(js, cap, st)
    else if IsBlank(c) then Next(st.(pos := st.pos + 1))
    else if c == ':' then Next(st.(pos := st.pos + 1, toksuper := |st.toks| - 1))
    else if c == ',' then CommaStep(st)
    else PrimitiveStep(js, cap, st)
  }

  /** The same round without a token array: brackets are not matched, only lexemes can fail. */
  function CountStep(js: string, p: nat, count: nat): (r: CountResult)
    requires HasMore(js, p)
    ensures p <= r.pos <= |js|
    ensures r.outcome.Ok? ==> r.pos > p && count <= r.outcome.count <= count + 1
  {
    var c := js[p];
    if c == '{' || c == '[' then CountResult(p + 1, Ok(count + 1))
    else if c == '}' || c == ']' || IsBlank(c) || c == ':' || c == ',' then CountResult(p + 1, Ok(count))
    else
      match if c == '"' then ScanString(js, p + 1) else ScanPrimitive(js, p)
      case Bad(e) => CountResult(p, Err(e))
      case Found(q) => CountResult(if c == '"' then q + 1 else q, Ok(count + 1))
  }

  datatype RunResult = RunResult(st: State, outcome: Outcome)

  /** jsmn_parse with a token array of capacity `cap`: a failing step leaves the state as it was. */
  function Run(js: string, cap: nat, st: State): (r: RunResult)
    requires st.WellFormed()
    ensures r.st.WellFormed() && st.pos <= r.st.pos && |st.toks| <= |r.st.toks|
    ensures r.outcome.Ok? ==> r.outcome.count == |r.st.toks|
    decreases |js| - st.pos
  {
    if !HasMore(js, st.pos) then
      RunResult(st, if LastOpen(st.toks, |st.toks|) != -1 then Err(Part) else Ok(|st.toks|))
    else
      match Step(js, cap, st)
      case Stop(e) => RunResult(st, Err(e))
      case Next(st') => Run(js, cap, st')
  }

  // --- the counting mode --------------------------------------------------------------------------

  datatype CountResult = CountResult(pos: nat, outcome: Outcome)

  /** jsmn_parse without a token array. */
  function CountRun(js: string, p: nat, count: nat): (r: CountResult)
    ensures r.outcome.Ok? ==> r.outcome.count >= count
    decreases |js| - p
  {
    if !HasMore(js, p) then CountResult(p, Ok(count))
    else
      var s := CountStep(js, p, count);
      if s.outcome.Err? then s else CountRun(js, s.pos, s.outcome.count)
  }
}
