/** Tokenizing well-formed JSON: a document tree, its text with any amount of blank space, and the tokens it
    must give.  The tokenizer yields exactly those tokens: type, bounds and number of children of every value. */
module JsmnGrammar {
  import opened JsmnSpec

  // --- documents ----------------------------------------------------------------------------------

  /** `raw` is the text between the quotes, escapes included; `pad` is the blank space behind a bracket. */
  datatype Json =
    | JString(raw: string)
    | JPrimitive(text: string)
    | JArray(pad: string, children: Children)
    | JObject(pad: string, children: Children)
  {
    predicate IsContainer() { JArray? || JObject? }
  }

  /** The children of an array are items, those of an object pairs.  `gap` stands before the comma or the
      closing bracket, `next` behind the comma. */
  datatype Children =
    | Nothing
    | Item(value: Json, gap: string, next: string, rest: Children)
    | Pair(key: string, beforeColon: string, afterColon: string, value: Json, gap: string, next: string, rest: Children)

  function Print(v: Json): string
    decreases v, 3
  {
    match v
    case JString(raw) => Quoted(raw)
    case JPrimitive(text) => text
    case JArray(pad, children) => "[" + (pad + (PrintChildren(children) + "]"))
    case JObject(pad, children) => "{" + (pad + (PrintChildren(children) + "}"))
  }

  function PrintChildren(cs: Children): string
    decreases cs, 1
  {
    if cs.Nothing? then "" else PrintEntry(cs) + (cs.gap + PrintTail(cs.next, cs.rest))
  }

  function PrintEntry(cs: Children): string
    requires !cs.Nothing?
    decreases cs, 0
  {
    if cs.Pair? then Label(cs.key, cs.beforeColon, cs.afterColon) + Print(cs.value) else Print(cs.value)
  }

  function PrintTail(next: string, rest: Children): string
    decreases rest, 2
  {
    if rest.Nothing? then "" else "," + (next + PrintChildren(rest))
  }

  function Label(key: string, beforeColon: string, afterColon: string): string {
    Quoted(key) + (beforeColon + (":" + afterColon))
  }

  function Quoted(raw: string): string { "\"" + (raw + "\"") }

  // The characters of a text, spelled out: nothing here is taken from the tokenizer.

  predicate Blank(c: char) { c == ' ' || c == '\t' || c == '\n' || c == '\r' }

  predicate AllBlank(s: string) { forall i :: 0 <= i < |s| ==> Blank(s[i]) }

  predicate Hexadecimal(c: char) { '0' <= c <= '9' || 'a' <= c <= 'f' || 'A' <= c <= 'F' }

  /** What may stand behind a backslash, apart from \uXXXX. */
  predicate Escaped(c: char) {
    c == '"' || c == '\\' || c == '/' || c == 'b' || c == 'f' || c == 'n' || c == 'r' || c == 't'
  }

  /** The inside of a JSON string: plain characters, two-character escapes and \uXXXX. */
  predicate StringBody(raw: string) {
    raw == []
    || (raw[0] != '"' && raw[0] != '\0' && raw[0] != '\\' && StringBody(raw[1..]))
    || (|raw| >= 2 && raw[0] == '\\' && Escaped(raw[1]) && StringBody(raw[2..]))
    || (|raw| >= 6 && raw[0] == '\\' && raw[1] == 'u' && FourHexadecimal(raw[2], raw[3], raw[4], raw[5])
        && StringBody(raw[6..]))
  }

  predicate FourHexadecimal(a: char, b: char, c: char, d: char) {
    Hexadecimal(a) && Hexadecimal(b) && Hexadecimal(c) && Hexadecimal(d)
  }

  /** The characters of an unquoted word: from ! to ~ without the four that end it. */
  predicate Bare(c: char) { '!' <= c <= '~' && c != ':' && c != ',' && c != ']' && c != '}' }

  /** Numbers, true, false, null and every other unquoted word that the loose mode takes. */
  predicate PrimitiveText(text: string) {
    && text != []
    && text[0] != '{' && text[0] != '[' && text[0] != '"'
    && forall i :: 0 <= i < |text| ==> Bare(text[i])
  }

  predicate WellFormedJson(v: Json) {
    match v
    case JString(raw) => StringBody(raw)
    case JPrimitive(text) => PrimitiveText(text)
    case JArray(pad, children) => AllBlank(pad) && WellFormedChildren(children, false)
    case JObject(pad, children) => AllBlank(pad) && WellFormedChildren(children, true)
  }

  predicate WellFormedChildren(cs: Children, paired: bool) {
    cs.Nothing? ||
    (&& cs.Pair? == paired
     && (cs.Pair? ==> StringBody(cs.key) && AllBlank(cs.beforeColon) && AllBlank(cs.afterColon))
     && WellFormedJson(cs.value) && AllBlank(cs.gap) && AllBlank(cs.next)
     && WellFormedChildren(cs.rest, paired))
  }

  // --- the tokens a document must give -----------------------------------------------------------------

  function Count(cs: Children): nat { if cs.Nothing? then 0 else 1 + Count(cs.rest) }

  /** The tokens of the value printed at `off`: itself, then those of its children in order. */
  function Tokens(v: Json, off: nat): (r: seq<Token>)
    decreases v, 2
  {
    match v
    case JString(raw) => [Token(String, off + 1, off + 1 + |raw|, 0)]
    case JPrimitive(text) => [Token(Primitive, off, off + |text|, 0)]
    case JArray(pad, children) =>
      [Token(Array, off, off + |Print(v)|, Count(children))] + ChildTokens(children, off + 1 + |pad|)
    case JObject(pad, children) =>
      [Token(Object, off, off + |Print(v)|, Count(children))] + ChildTokens(children, off + 1 + |pad|)
  }

  function ChildTokens(cs: Children, off: nat): seq<Token>
    decreases cs, 1
  {
    if cs.Nothing? then []
    else EntryTokens(cs, off) + ChildTokens(cs.rest, off + |PrintEntry(cs)| + |cs.gap| + 1 + |cs.next|)
  }

  /** A key is a string token with one child, its value. */
  function EntryTokens(cs: Children, off: nat): seq<Token>
    requires !cs.Nothing?
    decreases cs, 0
  {
    if cs.Pair? then
      [Token(String, off + 1, off + 1 + |cs.key|, 1)]
        + Tokens(cs.value, off + |Label(cs.key, cs.beforeColon, cs.afterColon)|)
    else Tokens(cs.value, off)
  }

  // --- reading the text piece by piece -------------------------------------------------------------------

  /** The text `s` stands at `p`. */
  predicate At(js: string, p: nat, s: string)
    decreases |s|
  {
    s == "" || (p < |js| && js[p] == s[0] && At(js, p + 1, s[1..]))
  }

  lemma {:induction false} AtSplit(js: string, p: nat, a: string, b: string)
    requires At(js, p, a + b)
    ensures At(js, p, a) && At(js, p + |a|, b)
    decreases |a|
  {
    if a == "" {
      assert a + b == b;
    } else {
      assert (a + b)[1..] == a[1..] + b;
      AtSplit(js, p + 1, a[1..], b);
    }
  }

  lemma {:induction false} AtChar(js: string, p: nat, s: string, i: nat)
    requires At(js, p, s) && i < |s|
    ensures p + i < |js| && js[p + i] == s[i]
    decreases i
  {
    if i > 0 {
      AtChar(js, p + 1, s[1..], i - 1);
    }
  }

  /** From `a` the tokenizer gets to `b`, given an array with room for the tokens of `b`. */
  ghost predicate Leads(js: string, a: State, b: State) {
    && a.WellFormed() && b.WellFormed() && |a.toks| <= |b.toks|
    && forall cap: nat :: |b.toks| <= cap ==> Run(js, cap, a) == Run(js, cap, b)
  }

  lemma LeadsOn(js: string, a: State, b: State, c: State)
    requires Leads(js, a, b) && Leads(js, b, c)
    ensures Leads(js, a, c)
  {
  }

  lemma StepLeads(js: string, a: State, b: State)
    requires a.WellFormed() && b.WellFormed() && HasMore(js, a.pos) && |a.toks| <= |b.toks|
    requires forall cap: nat :: |b.toks| <= cap ==> Step(js, cap, a) == Next(b)
    ensures Leads(js, a, b)
  {
    forall cap: nat | |b.toks| <= cap ensures Run(js, cap, a) == Run(js, cap, b) {
      assert Step(js, cap, a) == Next(b);
    }
  }

  lemma {:induction false} SkipBlanks(js: string, st: State, s: string) returns (st': State)
    requires st.WellFormed() && At(js, st.pos, s) && AllBlank(s)
    ensures st' == st.(pos := st.pos + |s|) && Leads(js, st, st')
    decreases |s|
  {
    st' := st.(pos := st.pos + |s|);
    if s != [] {
      AtSplit(js, st.pos, [s[0]], s[1..]);
      assert s == [s[0]] + s[1..];
      AtChar(js, st.pos, s, 0);
      assert Blank(s[0]);
      var next := st.(pos := st.pos + 1);
      StepLeads(js, st, next);
      st' := SkipBlanks(js, next, s[1..]);
      LeadsOn(js, st, next, st');
    }
  }

  lemma {:induction false} StringBodyScans(js: string, p: nat, raw: string)
    requires At(js, p, raw + "\"") && StringBody(raw)
    ensures ScanString(js, p) == Found(p + |raw|)
    decreases |raw|
  {
    var text := raw + "\"";
    AtChar(js, p, text, 0);
    if raw != [] {
      if raw[0] != '\\' {
        assert text == [raw[0]] + (raw[1..] + "\"");
        AtSplit(js, p, [raw[0]], raw[1..] + "\"");
        StringBodyScans(js, p + 1, raw[1..]);
      } else {
        AtChar(js, p, text, 1);
        if Escaped(raw[1]) {
          assert text == raw[..2] + (raw[2..] + "\"");
          AtSplit(js, p, raw[..2], raw[2..] + "\"");
          StringBodyScans(js, p + 2, raw[2..]);
        } else {
          HexScans(js, p, raw);
          assert text == raw[..6] + (raw[6..] + "\"");
          AtSplit(js, p, raw[..6], raw[6..] + "\"");
          StringBodyScans(js, p + 6, raw[6..]);
        }
      }
    }
  }

  lemma HexScans(js: string, p: nat, raw: string)
    requires At(js, p, raw + "\"") && |raw| >= 6
    requires FourHexadecimal(raw[2], raw[3], raw[4], raw[5])
    ensures ScanHex(js, p + 2, 4) == Found(p + 6)
  {
    var text := raw + "\"";
    AtChar(js, p, text, 2);
    AtChar(js, p, text, 3);
    AtChar(js, p, text, 4);
    AtChar(js, p, text, 5);
    assert ScanHex(js, p + 6, 0) == Found(p + 6);
    assert ScanHex(js, p + 5, 1) == Found(p + 6);
    assert ScanHex(js, p + 4, 2) == Found(p + 6);
    assert ScanHex(js, p + 3, 3) == Found(p + 6);
  }

  /** Nothing, or a character that ends a primitive, stands at `p`. */
  predicate EndsPrimitive(js: string, p: nat) { !HasMore(js, p) || IsDelimiter(js[p]) }

  lemma {:induction false} PrimitiveScans(js: string, p: nat, text: string)
    requires At(js, p, text) && EndsPrimitive(js, p + |text|)
    requires forall i :: 0 <= i < |text| ==> Bare(text[i])
    ensures ScanPrimitive(js, p) == Found(p + |text|)
    decreases |text|
  {
    if text != [] {
      AtChar(js, p, text, 0);
      assert Bare(text[0]);
      AtSplit(js, p, [text[0]], text[1..]);
      assert text == [text[0]] + text[1..];
      PrimitiveScans(js, p + 1, text[1..]);
    }
  }

  // --- one value ------------------------------------------------------------------------------------------

  function AddSize(toks: seq<Token>, k: nat, n: nat): (r: seq<Token>)
    requires k < |toks|
    ensures |r| == |toks|
  {
    toks[k := toks[k].(size := toks[k].size + n)]
  }

  /** The token that encloses whatever comes next. */
  function Top(st: State): int { LastOpen(st.toks, |st.toks|) }

  lemma {:induction false} LastOpenIs(toks: seq<Token>, n: nat, k: int)
    requires n <= |toks| && -1 <= k < n
    requires k >= 0 ==> toks[k].IsOpen()
    requires forall i :: k < i < n ==> !toks[i].IsOpen()
    ensures LastOpen(toks, n) == k
  {
    if n - 1 > k {
      LastOpenIs(toks, n - 1, k);
    }
  }

  /** Only containers are ever open here, so both searches agree. */
  lemma {:induction false} LastContainerIs(toks: seq<Token>, n: nat, k: nat)
    requires k < n <= |toks| && LastOpen(toks, n) == k && toks[k].IsContainer()
    ensures LastOpenContainer(toks, n) == k
  {
    if n - 1 > k {
      LastContainerIs(toks, n - 1, k);
    }
  }

  predicate AllClosed(toks: seq<Token>) { forall t :: t in toks ==> !t.IsOpen() }

  lemma {:induction false} TokensAreClosed(v: Json, off: nat)
    ensures AllClosed(Tokens(v, off)) && |Tokens(v, off)| >= 1
    decreases v, 2
  {
    match v
    case JString(_) =>
    case JPrimitive(_) =>
    case JArray(pad, cs) => ChildTokensAreClosed(cs, off + 1 + |pad|);
    case JObject(pad, cs) => ChildTokensAreClosed(cs, off + 1 + |pad|);
  }

  lemma {:induction false} ChildTokensAreClosed(cs: Children, off: nat)
    ensures AllClosed(ChildTokens(cs, off))
    decreases cs, 1
  {
    if !cs.Nothing? {
      EntryTokensAreClosed(cs, off);
      ChildTokensAreClosed(cs.rest, off + |PrintEntry(cs)| + |cs.gap| + 1 + |cs.next|);
    }
  }

  lemma {:induction false} EntryTokensAreClosed(cs: Children, off: nat)
    requires !cs.Nothing?
    ensures AllClosed(EntryTokens(cs, off))
    decreases cs, 0
  {
    TokensAreClosed(cs.value, if cs.Pair? then off + |Label(cs.key, cs.beforeColon, cs.afterColon)| else off);
  }

  /** The state behind a value: its tokens are appended, its parent counts one more child.  Behind a bracket
      the superior token is the enclosing container; behind a lexeme it is what it was. */
  function After(st: State, v: Json): (r: State)
    requires st.WellFormed()
  {
    State(st.pos + |Print(v)|, if v.IsContainer() then Top(st) else st.toksuper,
          Bump(st.toks, st.toksuper) + Tokens(v, st.pos))
  }

  lemma AfterKeepsTop(st: State, v: Json)
    requires st.WellFormed()
    ensures After(st, v).WellFormed() && Top(After(st, v)) == Top(st)
  {
    TokensAreClosed(v, st.pos);
    ClosedAboveLastOpen(st.toks, |st.toks|);
    var toks := After(st, v).toks;
    var bumped := Bump(st.toks, st.toksuper);
    assert toks[..|st.toks|] == bumped;
    forall i | Top(st) < i < |toks| ensures !toks[i].IsOpen() {
      if i >= |st.toks| { assert toks[i] in Tokens(v, st.pos); }
    }
    LastOpenIs(toks, |toks|, Top(st));
  }

  lemma StringParses(js: string, st: State, raw: string)
    requires st.WellFormed() && StringBody(raw) && At(js, st.pos, Quoted(raw))
    ensures Leads(js, st, After(st, JString(raw)))
  {
    AtChar(js, st.pos, Quoted(raw), 0);
    AtSplit(js, st.pos, "\"", raw + "\"");
    StringBodyScans(js, st.pos + 1, raw);
    StepLeads(js, st, After(st, JString(raw)));
  }

  lemma PrimitiveParses(js: string, st: State, text: string)
    requires st.WellFormed() && PrimitiveText(text) && At(js, st.pos, text)
    requires EndsPrimitive(js, st.pos + |text|)
    ensures Leads(js, st, After(st, JPrimitive(text)))
  {
    AtChar(js, st.pos, text, 0);
    assert Bare(text[0]);
    PrimitiveScans(js, st.pos, text);
    StepLeads(js, st, After(st, JPrimitive(text)));
  }

  lemma {:induction false} ValueParses(js: string, st: State, v: Json)
    requires st.WellFormed() && WellFormedJson(v) && At(js, st.pos, Print(v))
    requires v.JPrimitive? ==> EndsPrimitive(js, st.pos + |Print(v)|)
    ensures Leads(js, st, After(st, v))
    decreases v, 1
  {
    match v
    case JString(raw) => StringParses(js, st, raw);
    case JPrimitive(text) => PrimitiveParses(js, st, text);
    case JArray(pad, cs) => ContainerParses(js, st, v, Array, "[", "]");
    case JObject(pad, cs) => ContainerParses(js, st, v, Object, "{", "}");
  }

  // --- containers -----------------------------------------------------------------------------------------

  function Bracket(kind: TokenType): (r: (char, char))
  {
    if kind == Array then ('[', ']') else ('{', '}')
  }

  lemma {:induction false} ContainerParses(js: string, st: State, v: Json, kind: TokenType, open: string, close: string)
    requires st.WellFormed() && v.IsContainer() && kind == (if v.JArray? then Array else Object)
    requires open == [Bracket(kind).0] && close == [Bracket(kind).1]
    requires AllBlank(v.pad) && WellFormedChildren(v.children, v.JObject?)
    requires Print(v) == open + (v.pad + (PrintChildren(v.children) + close)) && At(js, st.pos, Print(v))
    ensures Leads(js, st, After(st, v))
    decreases v, 0
  {
    var inner := OpenParses(js, st, kind, open, v.pad, PrintChildren(v.children), close);
    var full := ChildrenParse(js, inner, |st.toks|, v.children);
    CloseParses(js, st, v, inner, full, close);
  }

  /** An opening bracket and its blank space: a new open token, the superior of what follows. */
  lemma OpenParses(js: string, st: State, kind: TokenType, bracket: string, pad: string, text: string, close: string)
    returns (inner: State)
    requires st.WellFormed() && AllBlank(pad) && (kind == Array || kind == Object)
    requires bracket == [Bracket(kind).0] && close == [Bracket(kind).1]
    requires At(js, st.pos, bracket + (pad + (text + close)))
    ensures inner == State(st.pos + 1 + |pad|, |st.toks|, Bump(st.toks, st.toksuper) + [Token(kind, st.pos, -1, 0)])
    ensures Top(inner) == |st.toks| && Leads(js, st, inner)
    ensures At(js, inner.pos, text) && At(js, inner.pos + |text|, close) && EndsPrimitive(js, inner.pos + |text|)
    ensures |bracket + (pad + (text + close))| == 2 + |pad| + |text|
  {
    AtSplit(js, st.pos, bracket, pad + (text + close));
    AtSplit(js, st.pos + 1, pad, text + close);
    AtChar(js, st.pos, bracket, 0);
    var entered := OpenStep(|st.toks| + 1, st, kind).st;
    StepLeads(js, st, entered);
    inner := SkipBlanks(js, entered, pad);
    LeadsOn(js, st, entered, inner);
    AtSplit(js, inner.pos, text, close);
    AtChar(js, inner.pos + |text|, close, 0);
  }

  /** The closing bracket, when the children have been read: the container is complete. */
  lemma CloseParses(js: string, st: State, v: Json, inner: State, full: State, close: string)
    requires v.IsContainer() && close == [Bracket(if v.JArray? then Array else Object).1]
    requires Leads(js, st, inner) && Leads(js, inner, full)
    requires var kind := if v.JArray? then Array else Object;
      inner == State(st.pos + 1 + |v.pad|, |st.toks|, Bump(st.toks, st.toksuper) + [Token(kind, st.pos, -1, 0)])
    requires Filled(inner, |st.toks|, v.children, full)
    requires At(js, full.pos, close) && full.pos + 1 == st.pos + |Print(v)|
    ensures Leads(js, st, After(st, v))
  {
    var k := |st.toks|;
    var kind := if v.JArray? then Array else Object;
    AtChar(js, full.pos, close, 0);
    CloseTokens(Bump(st.toks, st.toksuper), Token(kind, st.pos, -1, 0), Count(v.children),
                ChildTokens(v.children, inner.pos), full.pos + 1);
    LastOpenBelow(st, full.toks);
    CloseStepIs(full, k, kind, Top(st));
    assert After(st, v) == State(full.pos + 1, Top(st), full.toks[k := full.toks[k].(end := full.pos + 1)]);
    BracketLeads(js, full, kind, After(st, v));
    LeadsOn(js, st, inner, full);
    LeadsOn(js, st, full, After(st, v));
  }

  lemma BracketLeads(js: string, st: State, kind: TokenType, next: State)
    requires st.WellFormed() && next.WellFormed() && HasMore(js, st.pos) && |st.toks| <= |next.toks|
    requires (kind == Array && js[st.pos] == ']') || (kind == Object && js[st.pos] == '}')
    requires CloseStep(st, kind) == Next(next)
    ensures Leads(js, st, next)
  {
    StepLeads(js, st, next);
  }

  lemma CloseStepIs(st: State, k: nat, kind: TokenType, outer: int)
    requires st.WellFormed() && Top(st) == k && st.toks[k].kind == kind && LastOpen(st.toks, k) == outer
    ensures CloseStep(st, kind) == Next(State(st.pos + 1, outer, st.toks[k := st.toks[k].(end := st.pos + 1)]))
  {
    var toks := st.toks[k := st.toks[k].(end := st.pos + 1)];
    ClosedAboveLastOpen(st.toks, k);
    LastOpenIs(toks, k + 1, outer);
  }

  lemma CloseTokens(base: seq<Token>, open: Token, n: nat, inside: seq<Token>, end: int)
    ensures var k := |base|;
      var full := AddSize(base + [open], k, n) + inside;
      && full[k].kind == open.kind && full[..k] == base
      && full[k := full[k].(end := end)] == base + ([Token(open.kind, open.start, end, open.size + n)] + inside)
  {
  }

  /** Below a new token the open containers are those from before. */
  lemma LastOpenBelow(st: State, toks: seq<Token>)
    requires st.WellFormed() && |st.toks| <= |toks|
    requires toks[..|st.toks|] == Bump(st.toks, st.toksuper)
    ensures LastOpen(toks, |st.toks|) == Top(st)
  {
    ClosedAboveLastOpen(st.toks, |st.toks|);
    forall i | 0 <= i < |st.toks| ensures toks[i].IsOpen() == st.toks[i].IsOpen() {
      assert toks[i] == toks[..|st.toks|][i];
    }
    LastOpenIs(toks, |st.toks|, Top(st));
  }

  // --- children -------------------------------------------------------------------------------------------

  /** `full` is the state behind the children `cs` of the open container at `k`, read from `st`. */
  predicate Filled(st: State, k: nat, cs: Children, full: State) {
    && k < |st.toks|
    && full.pos == st.pos + |PrintChildren(cs)|
    && full.toks == AddSize(st.toks, k, Count(cs)) + ChildTokens(cs, st.pos)
    && Top(full) == k
  }

  lemma {:induction false} ChildrenParse(js: string, st: State, k: nat, cs: Children) returns (full: State)
    requires st.WellFormed() && st.toksuper == k == Top(st) && st.toks[k].IsContainer()
    requires WellFormedChildren(cs, st.toks[k].kind == Object)
    requires At(js, st.pos, PrintChildren(cs)) && EndsPrimitive(js, st.pos + |PrintChildren(cs)|)
    ensures Filled(st, k, cs, full) && Leads(js, st, full)
    decreases cs, 3
  {
    if cs.Nothing? {
      JoinNothing(st.toks, k);
      full := st;
    } else {
      full := SomeChildrenParse(js, st, k, cs, PrintTail(cs.next, cs.rest));
    }
  }

  lemma {:induction false} SomeChildrenParse(js: string, st: State, k: nat, cs: Children, tail: string)
    returns (full: State)
    requires st.WellFormed() && st.toksuper == k == Top(st) && st.toks[k].IsContainer()
    requires !cs.Nothing? && WellFormedChildren(cs, st.toks[k].kind == Object) && tail == PrintTail(cs.next, cs.rest)
    requires At(js, st.pos, PrintEntry(cs) + (cs.gap + tail))
    requires EndsPrimitive(js, st.pos + |PrintEntry(cs)| + |cs.gap| + |tail|)
    ensures full.pos == st.pos + |PrintEntry(cs)| + |cs.gap| + |tail|
    ensures full.toks == AddSize(st.toks, k, Count(cs)) + ChildTokens(cs, st.pos)
    ensures Top(full) == k && Leads(js, st, full)
    decreases cs, 2
  {
    TailEndsPrimitive(js, st.pos, PrintEntry(cs), cs.gap, cs.next, cs.rest);
    var s := EntryParses(js, st, k, cs, tail);
    full := EntryAndRestParse(js, st, s, k, cs);
  }

  lemma {:induction false} EntryAndRestParse(js: string, st: State, s: State, k: nat, cs: Children)
    returns (full: State)
    requires k < |st.toks| && Leads(js, st, s) && Top(s) == k && s.toks[k].IsContainer()
    requires s.toksuper == k || (s.toksuper != -1 && !s.toks[s.toksuper].IsContainer())
    requires !cs.Nothing? && AllBlank(cs.next) && WellFormedChildren(cs.rest, s.toks[k].kind == Object)
    requires s.pos == st.pos + |PrintEntry(cs)| + |cs.gap|
    requires s.toks == AddSize(st.toks, k, 1) + EntryTokens(cs, st.pos)
    requires At(js, s.pos, PrintTail(cs.next, cs.rest))
    requires EndsPrimitive(js, s.pos + |PrintTail(cs.next, cs.rest)|)
    ensures full.pos == s.pos + |PrintTail(cs.next, cs.rest)|
    ensures full.toks == AddSize(st.toks, k, Count(cs)) + ChildTokens(cs, st.pos)
    ensures Top(full) == k && Leads(js, st, full)
    decreases cs, 1
  {
    full := RestParses(js, st, s, k, cs);
    FilledOn(st, k, cs, s.(pos := s.pos + 1 + |cs.next|), full);
  }

  /** From behind the first entry to behind the last. */
  lemma {:induction false} RestParses(js: string, from: State, s: State, k: nat, cs: Children) returns (full: State)
    requires Leads(js, from, s) && Top(s) == k && s.toks[k].IsContainer()
    requires s.toksuper == k || (s.toksuper != -1 && !s.toks[s.toksuper].IsContainer())
    requires !cs.Nothing? && AllBlank(cs.next) && WellFormedChildren(cs.rest, s.toks[k].kind == Object)
    requires At(js, s.pos, PrintTail(cs.next, cs.rest))
    requires EndsPrimitive(js, s.pos + |PrintTail(cs.next, cs.rest)|)
    ensures full.pos == s.pos + |PrintTail(cs.next, cs.rest)|
    ensures full.toks == AddSize(s.toks, k, Count(cs.rest)) + ChildTokens(cs.rest, s.pos + 1 + |cs.next|)
    ensures Top(full) == k && Leads(js, from, full)
    decreases cs, 0
  {
    if cs.rest.Nothing? {
      full := s;
      JoinNothing(s.toks, k);
    } else {
      var mid := CommaParses(js, from, s, k, cs.next, PrintChildren(cs.rest));
      full := ChildrenParse(js, mid, k, cs.rest);
      LeadsOn(js, from, mid, full);
    }
  }

  lemma FilledOn(st: State, k: nat, cs: Children, mid: State, full: State)
    requires k < |st.toks| && !cs.Nothing? && mid.toks == AddSize(st.toks, k, 1) + EntryTokens(cs, st.pos)
    requires mid.pos == st.pos + |PrintEntry(cs)| + |cs.gap| + 1 + |cs.next|
    requires full.toks == AddSize(mid.toks, k, Count(cs.rest)) + ChildTokens(cs.rest, mid.pos)
    ensures full.toks == AddSize(st.toks, k, Count(cs)) + ChildTokens(cs, st.pos)
  {
    JoinSizes(st.toks, k, EntryTokens(cs, st.pos), ChildTokens(cs.rest, mid.pos), Count(cs.rest));
  }

  /** Behind a child stands a comma, or what stands behind the last one. */
  lemma TailEndsPrimitive(js: string, p: nat, front: string, gap: string, next: string, rest: Children)
    requires At(js, p, front + (gap + PrintTail(next, rest)))
    requires EndsPrimitive(js, p + |front| + |gap| + |PrintTail(next, rest)|)
    ensures EndsPrimitive(js, p + |front| + |gap|)
  {
    if rest != Nothing {
      AtSplit(js, p, front, gap + PrintTail(next, rest));
      AtSplit(js, p + |front|, gap, PrintTail(next, rest));
      AtChar(js, p + |front| + |gap|, PrintTail(next, rest), 0);
    }
  }

  /** One entry of the container at `k` and the blank space behind it: the container counts one more child. */
  lemma {:induction false} EntryParses(js: string, st: State, k: nat, cs: Children, tail: string) returns (s: State)
    requires st.WellFormed() && st.toksuper == k == Top(st) && st.toks[k].IsContainer()
    requires !cs.Nothing? && WellFormedChildren(cs, st.toks[k].kind == Object)
    requires At(js, st.pos, PrintEntry(cs) + (cs.gap + tail))
    requires EndsPrimitive(js, st.pos + |PrintEntry(cs)| + |cs.gap|)
    ensures s.pos == st.pos + |PrintEntry(cs)| + |cs.gap| && At(js, s.pos, tail)
    ensures s.toks == AddSize(st.toks, k, 1) + EntryTokens(cs, st.pos) && s.toks[k].kind == st.toks[k].kind
    ensures Leads(js, st, s) && Top(s) == k
    ensures s.toksuper == k || (s.toksuper != -1 && !s.toks[s.toksuper].IsContainer())
    decreases cs, 0
  {
    if cs.Item? {
      s := ValueAndGap(js, st, cs.value, cs.gap, tail);
    } else {
      var front := Label(cs.key, cs.beforeColon, cs.afterColon);
      AppendAssociates(front, Print(cs.value), cs.gap + tail);
      AtSplit(js, st.pos, front, Print(cs.value) + (cs.gap + tail));
      var s0 := LabelParses(js, st, k, cs.key, cs.beforeColon, cs.afterColon);
      s := ValueAndGap(js, s0, cs.value, cs.gap, tail);
      LeadsOn(js, st, s0, s);
      LabelJoins(st.toks, k, s0, cs.value, Token(String, st.pos + 1, st.pos + 1 + |cs.key|, 0));
    }
  }

  /** A value, the blank space behind it, and the comma, bracket or end that follows. */
  lemma {:induction false} ValueAndGap(js: string, st: State, v: Json, gap: string, tail: string) returns (s: State)
    requires st.WellFormed() && WellFormedJson(v) && AllBlank(gap)
    requires At(js, st.pos, Print(v) + (gap + tail)) && EndsPrimitive(js, st.pos + |Print(v)| + |gap|)
    ensures s == After(st, v).(pos := st.pos + |Print(v)| + |gap|) && At(js, s.pos, tail)
    ensures Leads(js, st, s) && Top(s) == Top(st)
    decreases v, 2
  {
    AtSplit(js, st.pos, Print(v), gap + tail);
    GapEndsPrimitive(js, st.pos + |Print(v)|, gap, tail);
    ValueParses(js, st, v);
    s := GapParses(js, st, v, gap, tail);
  }

  lemma AppendAssociates(a: string, b: string, c: string)
    ensures (a + b) + c == a + (b + c)
  {
  }

  /** A key and a colon, behind which the key is the superior token. */
  lemma LabelParses(js: string, st: State, k: nat, key: string, beforeColon: string, afterColon: string)
    returns (s: State)
    requires st.WellFormed() && st.toksuper == k == Top(st)
    requires StringBody(key) && AllBlank(beforeColon) && AllBlank(afterColon)
    requires At(js, st.pos, Label(key, beforeColon, afterColon))
    ensures s == State(st.pos + |Label(key, beforeColon, afterColon)|, |st.toks|,
      AddSize(st.toks, k, 1) + [Token(String, st.pos + 1, st.pos + 1 + |key|, 0)])
    ensures Top(s) == k && Leads(js, st, s)
  {
    AtSplit(js, st.pos, Quoted(key), beforeColon + (":" + afterColon));
    StringParses(js, st, key);
    var s2 := GapParses(js, st, JString(key), beforeColon, ":" + afterColon);
    AtSplit(js, s2.pos, ":", afterColon);
    AtChar(js, s2.pos, ":", 0);
    var s3 := s2.(pos := s2.pos + 1, toksuper := |s2.toks| - 1);
    StepLeads(js, s2, s3);
    s := SkipBlanks(js, s3, afterColon);
    LeadsOn(js, s2, s3, s);
    LeadsOn(js, st, s2, s);
  }

  /** With its value the key has one child. */
  lemma LabelJoins(toks: seq<Token>, k: nat, s0: State, v: Json, key: Token)
    requires k < |toks| && s0.toksuper == |toks| && s0.toks == AddSize(toks, k, 1) + [key]
    ensures Bump(s0.toks, s0.toksuper) + Tokens(v, s0.pos)
      == AddSize(toks, k, 1) + ([key.(size := key.size + 1)] + Tokens(v, s0.pos))
  {
  }

  lemma JoinSizes(toks: seq<Token>, k: nat, head: seq<Token>, tail: seq<Token>, n: nat)
    requires k < |toks|
    ensures AddSize(AddSize(toks, k, 1) + head, k, n) + tail == AddSize(toks, k, 1 + n) + (head + tail)
  {
  }

  lemma JoinNothing(toks: seq<Token>, k: nat)
    requires k < |toks|
    ensures AddSize(toks, k, 0) + [] == toks
  {
  }

  lemma GapEndsPrimitive(js: string, p: nat, gap: string, tail: string)
    requires At(js, p, gap + tail) && AllBlank(gap) && EndsPrimitive(js, p + |gap|)
    ensures EndsPrimitive(js, p)
  {
    if gap != [] {
      AtSplit(js, p, gap, tail);
      AtChar(js, p, gap, 0);
      assert Blank(gap[0]);
    }
  }

  /** A value and the blank space behind it. */
  lemma GapParses(js: string, st: State, v: Json, gap: string, tail: string) returns (s: State)
    requires st.WellFormed() && Leads(js, st, After(st, v))
    requires At(js, st.pos + |Print(v)|, gap + tail) && AllBlank(gap)
    ensures s == After(st, v).(pos := st.pos + |Print(v)| + |gap|) && At(js, s.pos, tail)
    ensures Leads(js, st, s) && Top(s) == Top(st)
  {
    AfterKeepsTop(st, v);
    AtSplit(js, st.pos + |Print(v)|, gap, tail);
    s := SkipBlanks(js, After(st, v), gap);
    LeadsOn(js, st, After(st, v), s);
  }

  /** A comma behind a child leads back to the container, from a key as well as from a closed value. */
  lemma CommaReturns(st: State, k: nat)
    requires st.WellFormed() && Top(st) == k && st.toks[k].IsContainer()
    requires st.toksuper == k || (st.toksuper != -1 && !st.toks[st.toksuper].IsContainer())
    ensures CommaStep(st) == Next(State(st.pos + 1, k, st.toks))
  {
    LastContainerIs(st.toks, |st.toks|, k);
  }

  /** The comma between two children and the blank space behind it. */
  lemma CommaParses(js: string, from: State, st: State, k: nat, next: string, text: string) returns (s: State)
    requires Leads(js, from, st) && Top(st) == k && st.toks[k].IsContainer()
    requires st.toksuper == k || (st.toksuper != -1 && !st.toks[st.toksuper].IsContainer())
    requires At(js, st.pos, "," + (next + text)) && AllBlank(next)
    ensures s == State(st.pos + 1 + |next|, k, st.toks)
    ensures At(js, s.pos, text) && Leads(js, from, s)
  {
    AtSplit(js, st.pos, ",", next + text);
    AtSplit(js, st.pos + 1, next, text);
    AtChar(js, st.pos, ",", 0);
    CommaReturns(st, k);
    var s3 := State(st.pos + 1, k, st.toks);
    StepLeads(js, st, s3);
    s := SkipBlanks(js, s3, next);
    LeadsOn(js, st, s3, s);
    LeadsOn(js, from, st, s);
  }

  // --- a whole document -------------------------------------------------------------------------------------

  /** For every JSON document, with blank space around it, and for every text behind a terminating NUL: parsing
      with at least as many tokens as the document has values and keys returns that number and its tokens. */
  lemma DocumentParses(js: string, cap: nat, before: string, v: Json, after: string)
    requires WellFormedJson(v) && AllBlank(before) && AllBlank(after)
    requires At(js, 0, before + (Print(v) + after)) && !HasMore(js, |before + (Print(v) + after)|)
    requires |Tokens(v, |before|)| <= cap
    ensures Run(js, cap, Init) == RunResult(
      State(|before + (Print(v) + after)|, -1, Tokens(v, |before|)), Ok(|Tokens(v, |before|)|))
  {
    AtSplit(js, 0, before, Print(v) + after);
    var s0 := SkipBlanks(js, Init, before);
    assert after + "" == after;
    var s2 := ValueAndGap(js, s0, v, after, "");
    LeadsOn(js, Init, s0, s2);
    RunEnds(js, cap, s2, Tokens(v, |before|));
  }

  /** The same for a text without blank space around it. */
  lemma BareDocumentParses(js: string, cap: nat, v: Json, text: string)
    requires WellFormedJson(v) && text == Print(v) && At(js, 0, text) && !HasMore(js, |text|)
    requires |Tokens(v, 0)| <= cap
    ensures Run(js, cap, Init) == RunResult(State(|text|, -1, Tokens(v, 0)), Ok(|Tokens(v, 0)|))
  {
    BareText(js, text);
    DocumentParses(js, cap, "", v, "");
  }

  lemma BareText(js: string, t: string)
    requires At(js, 0, t)
    ensures At(js, 0, "" + (t + "")) && |"" + (t + "")| == |t|
  {
    assert "" + (t + "") == t;
  }

  lemma RunEnds(js: string, cap: nat, st: State, toks: seq<Token>)
    requires Leads(js, Init, st) && !HasMore(js, st.pos) && Top(st) == -1
    requires st.toks == [] + toks && |toks| <= cap
    ensures Run(js, cap, Init) == RunResult(State(st.pos, st.toksuper, toks), Ok(|toks|))
  {
    assert st.toks == toks;
  }
}
