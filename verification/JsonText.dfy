/** JSON texts as RFC 8259 gives them, built from their smallest parts: every such text, with any white space, is
    tokenized by sources/utility/jsmn.c.  Texts are printed from data, so that no predicate on characters decides
    which texts are meant. */
module JsonText {
  import opened Prelude
  import opened JsmnSpec
  import opened JsmnGrammar

  // --- section 2: white space -----------------------------------------------------------------------------

  datatype WhiteSpace = Space | HorizontalTab | LineFeed | CarriageReturn

  function SpaceText(w: WhiteSpace): char {
    match w
    case Space => ' '
    case HorizontalTab => '\t'
    case LineFeed => '\n'
    case CarriageReturn => '\r'
  }

  function Spaces(ws: seq<WhiteSpace>): (s: string)
    ensures AllBlank(s)
  {
    seq(|ws|, i requires 0 <= i < |ws| => SpaceText(ws[i]))
  }

  // --- section 7: strings ---------------------------------------------------------------------------------

  /** The eight escapes of two characters. */
  datatype Escape = QuotationMark | ReverseSolidus | Solidus | Backspace | FormFeed | Newline | Return | Tab

  type Unescaped = c: char | ' ' <= c && c != '"' && c != '\\' witness 'a'
  type HexValue = n: nat | n < 16

  datatype HexDigit = HexDigit(value: HexValue, upper: bool)

  datatype Part =
    | Plain(symbol: Unescaped)
    | Escaping(e: Escape)
    | Unicode(h0: HexDigit, h1: HexDigit, h2: HexDigit, h3: HexDigit)

  function EscapeText(e: Escape): string {
    match e
    case QuotationMark => "\\\""
    case ReverseSolidus => "\\\\"
    case Solidus => "\\/"
    case Backspace => "\\b"
    case FormFeed => "\\f"
    case Newline => "\\n"
    case Return => "\\r"
    case Tab => "\\t"
  }

  function HexText(h: HexDigit): char {
    if h.upper then "0123456789ABCDEF"[h.value] else "0123456789abcdef"[h.value]
  }

  function PartText(p: Part): (s: string)
    ensures s != []
  {
    match p
    case Plain(c) => [c]
    case Escaping(e) => EscapeText(e)
    case Unicode(a, b, c, d) => "\\u" + [HexText(a), HexText(b), HexText(c), HexText(d)]
  }

  function PartsText(ps: seq<Part>): string {
    if ps == [] then "" else PartText(ps[0]) + PartsText(ps[1..])
  }

  // --- section 6: numbers ---------------------------------------------------------------------------------

  type digit = n: nat | n < 10
  type PositiveDigit = n: nat | 0 < n < 10 witness 1

  datatype Whole = Zero | Positive(first: PositiveDigit, more: seq<digit>)
  datatype Digits = Digits(first: digit, more: seq<digit>)
  datatype Sign = Unsigned | Plus | Minus
  datatype Exponent = Exponent(upper: bool, sign: Sign, digits: Digits)
  datatype Number = Number(negative: bool, whole: Whole, fraction: Option<Digits>, exponent: Option<Exponent>)

  function DigitText(d: digit): char { "0123456789"[d] }

  function DigitsText(ds: seq<digit>): (s: string)
    ensures |s| == |ds| && AllBare(s)
  {
    forall d: digit ensures Bare(DigitText(d)) {
      DigitIsBare(d);
    }
    seq(|ds|, i requires 0 <= i < |ds| => DigitText(ds[i]))
  }

  function WholeText(w: Whole): (s: string)
    ensures AllBare(s) && Leading(s)
  {
    match w
    case Zero => "0"
    case Positive(first, more) =>
      LeadingDigit(first, DigitsText(more));
      [DigitText(first)] + DigitsText(more)
  }

  function FractionText(f: Option<Digits>): (s: string)
    ensures AllBare(s)
  {
    match f
    case None => ""
    case Some(ds) => "." + DigitsText([ds.first] + ds.more)
  }

  function SignText(s: Sign): string {
    match s
    case Unsigned => ""
    case Plus => "+"
    case Minus => "-"
  }

  function ExponentText(e: Option<Exponent>): (s: string)
    ensures AllBare(s)
  {
    match e
    case None => ""
    case Some(x) => (if x.upper then "E" else "e") + SignText(x.sign) + DigitsText([x.digits.first] + x.digits.more)
  }

  function NumberText(n: Number): (s: string)
    ensures PrimitiveText(s)
  {
    var t := WholeText(n.whole) + FractionText(n.fraction) + ExponentText(n.exponent);
    LeadingAndMore(WholeText(n.whole), FractionText(n.fraction), ExponentText(n.exponent));
    if n.negative then "-" + t else t
  }

  predicate AllBare(s: string) { forall i :: 0 <= i < |s| ==> Bare(s[i]) }

  predicate Leading(s: string) { s != [] && '0' <= s[0] <= '9' }

  lemma DigitIsBare(d: digit)
    ensures '0' <= DigitText(d) <= '9' && Bare(DigitText(d))
  {
    if d < 5 {
      assert d == 0 || d == 1 || d == 2 || d == 3 || d == 4;
    } else {
      assert d == 5 || d == 6 || d == 7 || d == 8 || d == 9;
    }
  }

  lemma LeadingDigit(d: digit, s: string)
    requires AllBare(s)
    ensures AllBare([DigitText(d)] + s) && Leading([DigitText(d)] + s)
  {
    DigitIsBare(d);
  }

  lemma LeadingAndMore(a: string, b: string, c: string)
    requires AllBare(a) && AllBare(b) && AllBare(c) && Leading(a)
    ensures AllBare(a + b + c) && Leading(a + b + c)
  {
    assert (a + b + c)[0] == a[0];
  }

  // --- sections 3 to 5: values, objects and arrays ----------------------------------------------------------

  /** The white space stands behind an opening bracket, around a colon, in front of and behind a comma, and in front
      of a closing bracket. */
  datatype Value =
    | True | False | Null
    | Numeral(n: Number)
    | Text(parts: seq<Part>)
    | List(pad: seq<WhiteSpace>, elements: Elements)
    | Record(pad: seq<WhiteSpace>, members: Members)

  datatype Elements =
    | NoElement
    | Element(value: Value, gap: seq<WhiteSpace>, next: seq<WhiteSpace>, rest: Elements)

  datatype Members =
    | NoMember
    | Member(key: seq<Part>, beforeColon: seq<WhiteSpace>, afterColon: seq<WhiteSpace>, value: Value,
             gap: seq<WhiteSpace>, next: seq<WhiteSpace>, rest: Members)

  function Tree(v: Value): Json
    decreases v
  {
    match v
    case True => JPrimitive("true")
    case False => JPrimitive("false")
    case Null => JPrimitive("null")
    case Numeral(n) => JPrimitive(NumberText(n))
    case Text(parts) => JString(PartsText(parts))
    case List(pad, elements) => JArray(Spaces(pad), ElementTrees(elements))
    case Record(pad, members) => JObject(Spaces(pad), MemberTrees(members))
  }

  function ElementTrees(es: Elements): Children
    decreases es
  {
    match es
    case NoElement => Nothing
    case Element(value, gap, next, rest) => Item(Tree(value), Spaces(gap), Spaces(next), ElementTrees(rest))
  }

  function MemberTrees(ms: Members): Children
    decreases ms
  {
    match ms
    case NoMember => Nothing
    case Member(key, beforeColon, afterColon, value, gap, next, rest) =>
      Pair(PartsText(key), Spaces(beforeColon), Spaces(afterColon), Tree(value),
           Spaces(gap), Spaces(next), MemberTrees(rest))
  }

  // --- every text is one that the tokenizer takes ------------------------------------------------------------

  lemma HexTextIsHexadecimal(h: HexDigit)
    ensures Hexadecimal(HexText(h))
  {
    var v := h.value;
    if v < 8 {
      assert v == 0 || v == 1 || v == 2 || v == 3 || v == 4 || v == 5 || v == 6 || v == 7;
    } else {
      assert v == 8 || v == 9 || v == 10 || v == 11 || v == 12 || v == 13 || v == 14 || v == 15;
    }
  }

  lemma PartInFront(p: Part, s: string)
    requires StringBody(s)
    ensures StringBody(PartText(p) + s)
  {
    var text := PartText(p);
    var raw := text + s;
    match p
    case Plain(c) =>
      assert raw[0] == c && raw[1..] == s;
    case Escaping(e) =>
      assert |text| == 2 && text[0] == '\\' && Escaped(text[1]);
      assert raw[0] == text[0] && raw[1] == text[1] && raw[2..] == s;
    case Unicode(a, b, c, d) =>
      HexTextIsHexadecimal(a);
      HexTextIsHexadecimal(b);
      HexTextIsHexadecimal(c);
      HexTextIsHexadecimal(d);
      assert raw[0] == '\\' && raw[1] == 'u' && raw[6..] == s;
      assert raw[2] == HexText(a) && raw[3] == HexText(b) && raw[4] == HexText(c) && raw[5] == HexText(d);
  }

  lemma {:induction false} PartsAreABody(ps: seq<Part>)
    ensures StringBody(PartsText(ps))
    decreases |ps|
  {
    if ps != [] {
      PartsAreABody(ps[1..]);
      PartInFront(ps[0], PartsText(ps[1..]));
    }
  }

  lemma {:induction false} TreeIsWellFormed(v: Value)
    ensures WellFormedJson(Tree(v))
    decreases v
  {
    match v
    case True =>
    case False =>
    case Null =>
    case Numeral(_) =>
    case Text(parts) => PartsAreABody(parts);
    case List(_, elements) => ElementsAreWellFormed(elements);
    case Record(_, members) => MembersAreWellFormed(members);
  }

  lemma {:induction false} ElementsAreWellFormed(es: Elements)
    ensures WellFormedChildren(ElementTrees(es), false)
    decreases es
  {
    match es
    case NoElement =>
    case Element(value, _, _, rest) =>
      TreeIsWellFormed(value);
      ElementsAreWellFormed(rest);
  }

  lemma {:induction false} MembersAreWellFormed(ms: Members)
    ensures WellFormedChildren(MemberTrees(ms), true)
    decreases ms
  {
    match ms
    case NoMember =>
    case Member(key, _, _, value, _, _, rest) =>
      PartsAreABody(key);
      TreeIsWellFormed(value);
      MembersAreWellFormed(rest);
  }

  /** Every JSON text, whatever stands behind a NUL after it, is tokenized: one token for every value and every key,
      with its type, its bounds and the number of its children, as soon as the array has room for them. */
  lemma EveryTextParses(js: string, cap: nat, before: seq<WhiteSpace>, v: Value, after: seq<WhiteSpace>)
    requires At(js, 0, Spaces(before) + (Print(Tree(v)) + Spaces(after)))
    requires !HasMore(js, |Spaces(before) + (Print(Tree(v)) + Spaces(after))|)
    requires |Tokens(Tree(v), |before|)| <= cap
    ensures Run(js, cap, Init) == RunResult(
      State(|Spaces(before) + (Print(Tree(v)) + Spaces(after))|, -1, Tokens(Tree(v), |before|)),
      Ok(|Tokens(Tree(v), |before|)|))
  {
    TreeIsWellFormed(v);
    DocumentParses(js, cap, Spaces(before), Tree(v), Spaces(after));
  }

  /** An array of one string with an escaped newline in it: an array token and a string token. */
  lemma EscapedNewline(js: string)
    requires js == "[\"a\\nb\"]"
    ensures Run(js, 8, Init).outcome == Ok(2)
  {
    var parts := ThreeParts();
    var v := List([], Element(Text(parts), [], [], NoElement));
    TreeOfList(parts);
    Suffix(js, 0);
    assert js[0..] == js;
    NothingAround(js);
    EveryTextParses(js, 8, [], v, []);
  }

  lemma ThreeParts() returns (parts: seq<Part>)
    ensures PartsText(parts) == "a\\nb"
  {
    parts := [Plain('a'), Escaping(Newline), Plain('b')];
    assert PartsText(parts[2..]) == "b";
    assert PartsText(parts[1..]) == "\\nb";
  }

  lemma TreeOfList(parts: seq<Part>)
    requires PartsText(parts) == "a\\nb"
    ensures var tree := Tree(List([], Element(Text(parts), [], [], NoElement)));
      Print(tree) == "[\"a\\nb\"]" && |Tokens(tree, 0)| == 2
  {
    var item := Item(JString("a\\nb"), "", "", Nothing);
    NothingAround("");
    assert ElementTrees(NoElement) == Nothing;
    assert ElementTrees(Element(Text(parts), [], [], NoElement)) == item;
    PrintedItem("a\\nb");
    Bracketed(Quoted("a\\nb"));
    assert ChildTokens(Nothing, 8) == [];
  }

  lemma PrintedItem(raw: string)
    ensures PrintChildren(Item(JString(raw), "", "", Nothing)) == Quoted(raw)
  {
    var cs := Item(JString(raw), "", "", Nothing);
    assert PrintTail("", Nothing) == "" && PrintEntry(cs) == Print(cs.value) == Quoted(raw);
    assert PrintChildren(cs) == Quoted(raw) + ("" + "");
  }

  lemma Bracketed(text: string)
    requires text == Quoted("a\\nb")
    ensures "[" + ("" + (text + "]")) == "[\"a\\nb\"]"
  {
  }

  lemma NothingAround(js: string)
    ensures Spaces([]) == "" && "" + (js + "") == js
  {
  }

  lemma {:induction false} Suffix(js: string, p: nat)
    requires p <= |js|
    ensures At(js, p, js[p..])
    decreases |js| - p
  {
    if p < |js| {
      Suffix(js, p + 1);
      assert js[p..][1..] == js[p + 1..];
    }
  }
}
