/** json_serialize_parameter and json_deserialize_parameter_message of sources/protocol/json_parser.c: a printer
    and a parser over the tokenizer.  What the printer writes for at most 15 parameters the parser reads back. */
module ParameterJson {
  import opened JsmnSpec
  import opened Prelude
  import opened JsmnGrammar
  import JsmnStructure
  import JsmnCounting
  import JsmnParser

  const PARAMETER_TYPE_SIZE := 32
  const PARAMETER_VALUE_SIZE := 64
  const PAYLOAD_SIZE := 2048
  const JSON_TOKEN_SIZE := 32

  datatype Parameter = Parameter(name: string, value: string)

  // --- printing ---------------------------------------------------------------------------------------

  /** What one sprintf of the loop produces. */
  function Piece(ps: seq<Parameter>, i: nat): string
    requires i < |ps|
  {
    Quoted(ps[i].name) + (": " + (Quoted(ps[i].value) + (if |ps| > 1 && i < |ps| - 1 then "," else "")))
  }

  /** The pieces from the i-th on. */
  function Pieces(ps: seq<Parameter>, i: nat): string
    requires i <= |ps|
    decreases |ps| - i
  {
    if i == |ps| then "" else Piece(ps, i) + Pieces(ps, i + 1)
  }

  function Serialized(ps: seq<Parameter>): string { "{" + Pieces(ps, 0) + "}" }

  /** What becomes of a call: the payload it leaves, a refusal with what was appended before it, or a write too far. */
  datatype Printed = Done(payload: string) | Refused(payload: string) | Overruns

  /** The loop and what follows it; every string needs room for its terminator. */
  function PrintFrom(payload: string, ps: seq<Parameter>, i: nat): Printed
    requires i <= |ps|
    decreases |ps| - i
  {
    if i == |ps| then if |payload| + 1 >= PAYLOAD_SIZE then Overruns else Done(payload + "}")
    else if |Piece(ps, i)| >= PAYLOAD_SIZE then Overruns
    else if |Piece(ps, i)| > PAYLOAD_SIZE - |payload| then Refused(payload)
    else if |payload| + |Piece(ps, i)| >= PAYLOAD_SIZE then Overruns
    else PrintFrom(payload + Piece(ps, i), ps, i + 1)
  }

  function PrintInto(payload: string, ps: seq<Parameter>): Printed {
    if |payload| + 1 >= PAYLOAD_SIZE then Overruns else PrintFrom(payload + "{", ps, 0)
  }

  lemma {:induction false} PiecesShrink(ps: seq<Parameter>, i: nat, k: nat)
    requires i <= k <= |ps|
    ensures |Pieces(ps, k)| <= |Pieces(ps, i)|
    ensures i < k ==> |Pieces(ps, k)| + |Piece(ps, i)| <= |Pieces(ps, i)|
    decreases k - i
  {
    if i < k {
      PiecesShrink(ps, i + 1, k);
    }
  }

  lemma {:induction false} PrintedWhole(payload: string, ps: seq<Parameter>, i: nat)
    requires i <= |ps|
    ensures |payload| + |Pieces(ps, i)| + 1 < PAYLOAD_SIZE ==>
              PrintFrom(payload, ps, i) == Done(payload + Pieces(ps, i) + "}")
    ensures |payload| + |Pieces(ps, i)| + 1 >= PAYLOAD_SIZE ==> !PrintFrom(payload, ps, i).Done?
    decreases |ps| - i
  {
    if i < |ps| {
      PrintedWhole(payload + Piece(ps, i), ps, i + 1);
      assert payload + Piece(ps, i) + Pieces(ps, i + 1) == payload + Pieces(ps, i);
    } else {
      assert payload + "" == payload;
    }
  }

  /** A call is done, with the whole object appended, exactly if that and its terminator fit the buffer. */
  lemma PrintedExactly(payload: string, ps: seq<Parameter>)
    ensures |payload| + 2 + |Pieces(ps, 0)| < PAYLOAD_SIZE ==> PrintInto(payload, ps) == Done(payload + Serialized(ps))
    ensures |payload| + 2 + |Pieces(ps, 0)| >= PAYLOAD_SIZE ==> !PrintInto(payload, ps).Done?
  {
    PrintedWhole(payload + "{", ps, 0);
    assert payload + "{" + Pieces(ps, 0) + "}" == payload + Serialized(ps);
  }

  /**
   * The size check in front of the `k`-th piece, or the lack of one, lets a string through that leaves no room for its
   * terminator; `total` is the length with all pieces.
   */
  predicate OverrunsAt(total: int, ps: seq<Parameter>, k: nat)
    requires k <= |ps|
  {
    var n := total - |Pieces(ps, k)|;
    n == PAYLOAD_SIZE
    || (k < |ps| && n < PAYLOAD_SIZE <= |Piece(ps, k)|)
    || (k == |ps| && n == PAYLOAD_SIZE - 1)
  }

  predicate OverrunsFromOn(total: int, ps: seq<Parameter>, i: nat)
    requires i <= |ps|
  {
    exists k :: i <= k <= |ps| && OverrunsAt(total, ps, k)
  }

  lemma RefusedBefore(total: int, ps: seq<Parameter>, i: nat, k: nat)
    requires i < |ps| && i <= k <= |ps| && |Piece(ps, i)| < PAYLOAD_SIZE
    requires total - |Pieces(ps, i)| < PAYLOAD_SIZE < total - |Pieces(ps, i)| + |Piece(ps, i)|
    ensures !OverrunsAt(total, ps, k)
  {
    PiecesShrink(ps, i, k);
  }

  lemma OverrunsHereOrLater(total: int, ps: seq<Parameter>, i: nat)
    requires i < |ps|
    ensures OverrunsFromOn(total, ps, i) <==> OverrunsAt(total, ps, i) || OverrunsFromOn(total, ps, i + 1)
  {
  }

  lemma NoneWhenRefused(total: int, ps: seq<Parameter>, i: nat)
    requires i < |ps| && |Piece(ps, i)| < PAYLOAD_SIZE
    requires total - |Pieces(ps, i)| < PAYLOAD_SIZE < total - |Pieces(ps, i)| + |Piece(ps, i)|
    ensures !OverrunsFromOn(total, ps, i)
  {
    forall k | i <= k <= |ps| ensures !OverrunsAt(total, ps, k) {
      RefusedBefore(total, ps, i, k);
    }
  }

  lemma OverrunsHere(payload: string, ps: seq<Parameter>, i: nat)
    requires i < |ps| && |payload| < PAYLOAD_SIZE
    ensures |Pieces(ps, i)| == |Piece(ps, i)| + |Pieces(ps, i + 1)|
    ensures OverrunsAt(|payload| + |Pieces(ps, i)|, ps, i) <==> |Piece(ps, i)| >= PAYLOAD_SIZE
    ensures |payload| + |Piece(ps, i)| == PAYLOAD_SIZE ==> OverrunsAt(|payload| + |Pieces(ps, i)|, ps, i + 1)
  {
  }

  lemma {:induction false} OverrunsFrom(payload: string, ps: seq<Parameter>, i: nat)
    requires i <= |ps| && |payload| < PAYLOAD_SIZE
    ensures PrintFrom(payload, ps, i).Overruns? <==> OverrunsFromOn(|payload| + |Pieces(ps, i)|, ps, i)
    decreases |ps| - i
  {
    var total := |payload| + |Pieces(ps, i)|;
    if i == |ps| {
      assert OverrunsAt(total, ps, i) <==> |payload| + 1 == PAYLOAD_SIZE;
    } else {
      OverrunsHere(payload, ps, i);
      OverrunsHereOrLater(total, ps, i);
      var piece := Piece(ps, i);
      if |piece| < PAYLOAD_SIZE {
        if |piece| > PAYLOAD_SIZE - |payload| {
          NoneWhenRefused(total, ps, i);
        } else if |payload| + |piece| < PAYLOAD_SIZE {
          OverrunsFrom(payload + piece, ps, i + 1);
        }
      }
    }
  }

  /** A call writes behind the buffer exactly if one of its checks lets a string through that is too long by one. */
  lemma OverrunsExactly(payload: string, ps: seq<Parameter>)
    requires |payload| < PAYLOAD_SIZE
    ensures PrintInto(payload, ps).Overruns? <==>
            OverrunsFromOn(|payload| + 1 + |Pieces(ps, 0)|, ps, 0)
  {
    if |payload| + 1 == PAYLOAD_SIZE {
      assert OverrunsAt(|payload| + 1 + |Pieces(ps, 0)|, ps, 0);
    } else {
      assert |payload + "{"| == |payload| + 1;
      OverrunsFrom(payload + "{", ps, 0);
    }
  }

  lemma EvenPiece(ps: seq<Parameter>, width: nat, i: nat)
    requires i < |ps| && forall p :: p in ps ==> |p.name| + |p.value| == width
    ensures |Piece(ps, i)| == width + 6 + (if i + 1 < |ps| then 1 else 0)
  {
    assert ps[i] in ps;
  }

  lemma {:induction false} EvenPieces(ps: seq<Parameter>, width: nat, i: nat)
    requires i < |ps| && forall p :: p in ps ==> |p.name| + |p.value| == width
    ensures |Pieces(ps, i)| == (|ps| - i) * (width + 7) - 1
    decreases |ps| - i
  {
    EvenPiece(ps, width, i);
    OneMoreTimes(|ps| - i - 1, width + 7);
    if i + 1 < |ps| {
      EvenPieces(ps, width, i + 1);
    }
  }

  /** An empty payload, and 23 parameters with names of 31 and values of 51 characters, say. */
  lemma TwentyThreeOverrun(ps: seq<Parameter>)
    requires |ps| == 23 && forall p :: p in ps ==> |p.name| + |p.value| == 82
    ensures PrintInto("", ps) == Overruns
  {
    EvenPieces(ps, 82, 0);
    assert OverrunsAt(1 + |Pieces(ps, 0)|, ps, 23);
    OverrunsExactly("", ps);
  }

  // --- the payload buffer ---------------------------------------------------------------------------------------

  predicate NoNul(s: string) { '\0' !in s }

  /** A terminated string at the start of a buffer. */
  predicate Holds(buffer: seq<char>, s: string) {
    NoNul(s) && |s| < |buffer| && buffer[..|s|] == s && buffer[|s|] == '\0'
  }

  lemma OnlyOneTerminator(buffer: seq<char>, s: string, k: nat)
    requires Holds(buffer, s) && k <= |s|
    ensures buffer[k] == '\0' <==> k == |s|
  {
    if k < |s| {
      assert buffer[k] == buffer[..|s|][k] == s[k];
    }
  }

  /** strlen */
  method StringLength(buffer: array<char>, ghost s: string) returns (n: nat)
    requires Holds(buffer[..], s)
    ensures n == |s|
  {
    n := 0;
    OnlyOneTerminator(buffer[..], s, 0);
    while buffer[n] != '\0'
      invariant n <= |s| && (buffer[n] == '\0' <==> n == |s|)
      decreases |s| - n
    {
      n := n + 1;
      OnlyOneTerminator(buffer[..], s, n);
    }
  }

  /** strcat, which stops in front of a write behind the buffer. */
  method Append(buffer: array<char>, ghost s: string, t: string) returns (inside: bool)
    requires Holds(buffer[..], s) && NoNul(t)
    modifies buffer
    ensures inside <==> |s| + |t| < buffer.Length
    ensures inside ==> Holds(buffer[..], s + t)
  {
    var n := StringLength(buffer, s);
    inside := n + |t| < buffer.Length;
    if inside {
      for i := 0 to |t|
        invariant buffer[..n] == s && buffer[n..n + i] == t[..i]
      {
        buffer[n + i] := t[i];
      }
      buffer[n + |t|] := '\0';
      assert buffer[..n + |t|] == s + t;
    }
  }

  /** json_serialize_parameter into the payload array; not `inside` is a write behind an array. */
  method SerializeParameters(ps: seq<Parameter>, buffer: array<char>, ghost payload: string)
    returns (ok: bool, inside: bool)
    requires buffer.Length == PAYLOAD_SIZE && Holds(buffer[..], payload)
    requires forall p :: p in ps ==> NoNul(p.name) && NoNul(p.value)
    modifies buffer
    ensures match PrintInto(payload, ps)
            case Done(whole) => inside && ok && Holds(buffer[..], whole)
            case Refused(part) => inside && !ok && Holds(buffer[..], part)
            case Overruns => !inside
  {
    ghost var now := payload + "{";
    ok := false;
    inside := Append(buffer, payload, "{");
    if !inside {
      return;
    }
    var i := 0;
    while i < |ps|
      invariant 0 <= i <= |ps| && Holds(buffer[..], now)
      invariant PrintInto(payload, ps) == PrintFrom(now, ps, i)
    {
      var piece := Piece(ps, i);
      PieceIsString(ps, i);
      if |piece| >= PAYLOAD_SIZE {
        return false, false;
      }
      var length := StringLength(buffer, now);
      if |piece| > PAYLOAD_SIZE - length {
        return false, true;
      }
      inside := Append(buffer, now, piece);
      if !inside {
        return;
      }
      now := now + piece;
      i := i + 1;
    }
    inside := Append(buffer, now, "}");
    ok := true;
  }

  lemma PieceIsString(ps: seq<Parameter>, i: nat)
    requires i < |ps| && forall p :: p in ps ==> NoNul(p.name) && NoNul(p.value)
    ensures NoNul(Piece(ps, i))
  {
    assert ps[i] in ps;
    QuotedIsString(ps[i].name);
    QuotedIsString(ps[i].value);
  }

  lemma QuotedIsString(s: string)
    requires NoNul(s)
    ensures NoNul(Quoted(s))
  {
  }

  // --- parsing ------------------------------------------------------------------------------------------

  /** `written` are the structs filled in; a rejected message counts as 0.  A name that is the last token of the
      message makes the code read a token that the tokenizer did not write. */
  datatype Decode = Decoded(count: nat, written: seq<Parameter>) | ReadsUnwrittenToken

  /** What snprintf copies for "%.*s": it stops at a terminator inside the given length. */
  function UpToNul(s: string): (r: string)
    ensures |r| <= |s|
  {
    if s == "" || s[0] == '\0' then "" else [s[0]] + UpToNul(s[1..])
  }

  predicate InText(js: string, t: Token) { 0 <= t.start <= t.end <= |js| }

  function TokenText(js: string, t: Token): string
    requires InText(js, t)
  {
    UpToNul(js[t.start..t.end])
  }

  /** The loop over the tokens, two at a time. */
  function DecodeFrom(js: string, toks: seq<Token>, i: nat, written: seq<Parameter>): Decode
    requires forall t :: t in toks ==> InText(js, t)
    decreases |toks| - i
  {
    if i >= |toks| then Decoded(|written|, written)
    else if toks[i].kind != String then DecodeFrom(js, toks, i + 2, written)
    else
      var name := TokenText(js, toks[i]);
      if |name| >= PARAMETER_TYPE_SIZE then Decoded(0, written)
      else if i + 1 >= |toks| then ReadsUnwrittenToken
      else
        var value := TokenText(js, toks[i + 1]);
        if |value| >= PARAMETER_VALUE_SIZE then Decoded(0, written)
        else DecodeFrom(js, toks, i + 2, written + [Parameter(name, value)])
  }

  /** The pair at `j` is copied, or passed over because no string stands there. */
  predicate Passes(js: string, toks: seq<Token>, j: nat)
    requires j + 1 < |toks| && forall t :: t in toks ==> InText(js, t)
  {
    toks[j].kind == String ==>
      |TokenText(js, toks[j])| < PARAMETER_TYPE_SIZE && |TokenText(js, toks[j + 1])| < PARAMETER_VALUE_SIZE
  }

  /** The last token is a string at an odd place of the stride, and the decoder gets there. */
  predicate EndsInName(js: string, toks: seq<Token>, i: nat)
    requires forall t :: t in toks ==> InText(js, t)
  {
    i < |toks| && (|toks| - i) % 2 == 1
    && toks[|toks| - 1].kind == String && |TokenText(js, toks[|toks| - 1])| < PARAMETER_TYPE_SIZE
    && forall j :: i <= j < |toks| - 1 && (j - i) % 2 == 0 ==> Passes(js, toks, j)
  }

  lemma EndsInNameNext(js: string, toks: seq<Token>, i: nat)
    requires i + 1 < |toks| && forall t :: t in toks ==> InText(js, t)
    ensures EndsInName(js, toks, i) <==> Passes(js, toks, i) && EndsInName(js, toks, i + 2)
  {
  }

  lemma {:induction false} UnwrittenExactly(js: string, toks: seq<Token>, i: nat, written: seq<Parameter>)
    requires forall t :: t in toks ==> InText(js, t)
    ensures DecodeFrom(js, toks, i, written).ReadsUnwrittenToken? <==> EndsInName(js, toks, i)
    decreases |toks| - i
  {
    if i + 1 < |toks| {
      EndsInNameNext(js, toks, i);
      if toks[i].kind == String {
        var pair := Parameter(TokenText(js, toks[i]), TokenText(js, toks[i + 1]));
        UnwrittenExactly(js, toks, i + 2, written + [pair]);
      } else {
        UnwrittenExactly(js, toks, i + 2, written);
      }
    }
  }

  lemma TokensInText(js: string, cap: nat)
    requires Run(js, cap, Init).outcome.Ok?
    ensures var toks := Run(js, cap, Init).st.toks;
      |toks| == Run(js, cap, Init).outcome.count && forall t :: t in toks ==> InText(js, t)
  {
    JsmnStructure.ParseIsLaminar(js, cap, Init);
    var toks := Run(js, cap, Init).st.toks;
    forall t | t in toks ensures InText(js, t) {
      var i :| 0 <= i < |toks| && toks[i] == t;
      assert JsmnStructure.Delimited(js, toks[i], |js|);
    }
  }

  ghost function Deserialized(js: string): Decode {
    var r := Run(js, JSON_TOKEN_SIZE, Init);
    if r.outcome.Err? || r.outcome.count < 1 || r.st.toks[0].kind != Object || r.outcome.count >= JSON_TOKEN_SIZE then
      Decoded(0, [])
    else
      TokensInText(js, JSON_TOKEN_SIZE);
      DecodeFrom(js, r.st.toks, 1, [])
  }

  /** The message is taken on by the decoder: a JSON object of at most 31 tokens. */
  ghost predicate Accepted(js: string) {
    var r := Run(js, JSON_TOKEN_SIZE, Init);
    r.outcome.Ok? && 1 <= r.outcome.count < JSON_TOKEN_SIZE && r.st.toks[0].kind == Object
  }

  ghost function TokensOf(js: string): (toks: seq<Token>)
    requires Accepted(js)
    ensures forall t :: t in toks ==> InText(js, t)
  {
    TokensInText(js, JSON_TOKEN_SIZE);
    Run(js, JSON_TOKEN_SIZE, Init).st.toks
  }

  /** The decoder reads a token that was not written exactly for an object whose tokens end in the middle of a pair. */
  lemma ReadsUnwrittenExactly(js: string)
    ensures Deserialized(js).ReadsUnwrittenToken? <==> Accepted(js) && EndsInName(js, TokensOf(js), 1)
  {
    if Accepted(js) {
      UnwrittenExactly(js, TokensOf(js), 1, []);
    }
  }

  /** For example an object with a name only. */
  lemma NameOnlyReadsUnwritten()
    ensures Deserialized("{\"a\"}") == ReadsUnwrittenToken
  {
    var js := "{\"a\"}";
    var s1 := State(1, 0, [Token(Object, 0, -1, 0)]);
    assert Step(js, JSON_TOKEN_SIZE, Init) == Next(s1);
    assert ScanString(js, 2) == Found(3) by { assert ScanString(js, 3) == Found(3); }
    var s2 := State(4, 0, [Token(Object, 0, -1, 1), Token(String, 2, 3, 0)]);
    assert Step(js, JSON_TOKEN_SIZE, s1) == Next(s2);
    var s3 := State(5, -1, [Token(Object, 0, 5, 1), Token(String, 2, 3, 0)]);
    assert Step(js, JSON_TOKEN_SIZE, s2) == Next(s3);
    assert Run(js, JSON_TOKEN_SIZE, s3) == RunResult(s3, Ok(2));
    assert Run(js, JSON_TOKEN_SIZE, s2) == Run(js, JSON_TOKEN_SIZE, s3);
    assert Run(js, JSON_TOKEN_SIZE, s1) == Run(js, JSON_TOKEN_SIZE, s2);
    ReadsUnwrittenExactly(js);
    assert js[2..3] == "a";
  }

  /** And a document of RFC 8259, where the string is no name. */
  lemma NestedStringReadsUnwritten()
    ensures Deserialized("{\"a\":[\"b\"]}") == ReadsUnwrittenToken
  {
    var js := "{\"a\":[\"b\"]}";
    NestedTokens();
    ReadsUnwrittenExactly(js);
    assert js[2..3] == "a" && js[5..10] == "[\"b\"]" && js[7..8] == "b";
    TokenTextIs(js, 2, 3);
    TokenTextIs(js, 5, 10);
    TokenTextIs(js, 7, 8);
  }

  lemma TokenTextIs(js: string, start: nat, end: nat)
    requires start <= end <= |js|
    ensures |UpToNul(js[start..end])| <= end - start
  {
  }

  lemma NestedStart()
    ensures Run("{\"a\":[\"b\"]}", JSON_TOKEN_SIZE, Init) ==
            Run("{\"a\":[\"b\"]}", JSON_TOKEN_SIZE,
                State(5, 1, [Token(Object, 0, -1, 1), Token(String, 2, 3, 0)]))
  {
    var js := "{\"a\":[\"b\"]}";
    var s1 := State(1, 0, [Token(Object, 0, -1, 0)]);
    assert Step(js, JSON_TOKEN_SIZE, Init) == Next(s1);
    assert ScanString(js, 2) == Found(3) by { assert ScanString(js, 3) == Found(3); }
    var s2 := State(4, 0, [Token(Object, 0, -1, 1), Token(String, 2, 3, 0)]);
    assert Step(js, JSON_TOKEN_SIZE, s1) == Next(s2);
    var s3 := s2.(pos := 5, toksuper := 1);
    assert Step(js, JSON_TOKEN_SIZE, s2) == Next(s3);
    assert Run(js, JSON_TOKEN_SIZE, s2) == Run(js, JSON_TOKEN_SIZE, s3);
    assert Run(js, JSON_TOKEN_SIZE, s1) == Run(js, JSON_TOKEN_SIZE, s2);
  }

  lemma NestedTokens()
    ensures Run("{\"a\":[\"b\"]}", JSON_TOKEN_SIZE, Init) ==
            RunResult(State(11, -1, [Token(Object, 0, 11, 1), Token(String, 2, 3, 1), Token(Array, 5, 10, 1),
                                     Token(String, 7, 8, 0)]), Ok(4))
  {
    var js := "{\"a\":[\"b\"]}";
    NestedStart();
    NestedMiddle();
    NestedEnd();
  }

  lemma NestedMiddle()
    ensures Run("{\"a\":[\"b\"]}", JSON_TOKEN_SIZE,
                State(5, 1, [Token(Object, 0, -1, 1), Token(String, 2, 3, 0)])) ==
            Run("{\"a\":[\"b\"]}", JSON_TOKEN_SIZE,
                State(9, 2, [Token(Object, 0, -1, 1), Token(String, 2, 3, 1), Token(Array, 5, -1, 1),
                             Token(String, 7, 8, 0)]))
  {
    var js := "{\"a\":[\"b\"]}";
    var s3 := State(5, 1, [Token(Object, 0, -1, 1), Token(String, 2, 3, 0)]);
    var s4 := State(6, 2, [Token(Object, 0, -1, 1), Token(String, 2, 3, 1), Token(Array, 5, -1, 0)]);
    assert Step(js, JSON_TOKEN_SIZE, s3) == Next(s4);
    assert ScanString(js, 7) == Found(8) by { assert ScanString(js, 8) == Found(8); }
    var s5 := State(9, 2, [Token(Object, 0, -1, 1), Token(String, 2, 3, 1), Token(Array, 5, -1, 1),
                           Token(String, 7, 8, 0)]);
    assert Step(js, JSON_TOKEN_SIZE, s4) == Next(s5);
    assert Run(js, JSON_TOKEN_SIZE, s4) == Run(js, JSON_TOKEN_SIZE, s5);
  }

  lemma NestedEnd()
    ensures Run("{\"a\":[\"b\"]}", JSON_TOKEN_SIZE,
                State(9, 2, [Token(Object, 0, -1, 1), Token(String, 2, 3, 1), Token(Array, 5, -1, 1),
                             Token(String, 7, 8, 0)])) ==
            RunResult(State(11, -1, [Token(Object, 0, 11, 1), Token(String, 2, 3, 1), Token(Array, 5, 10, 1),
                                     Token(String, 7, 8, 0)]), Ok(4))
  {
    var js := "{\"a\":[\"b\"]}";
    var t0, t1, t3 := Token(Object, 0, -1, 1), Token(String, 2, 3, 1), Token(String, 7, 8, 0);
    var s5 := State(9, 2, [t0, t1, Token(Array, 5, -1, 1), t3]);
    var s6 := State(10, 0, [t0, t1, Token(Array, 5, 10, 1), t3]);
    assert LastOpen(s5.toks, 4) == 2;
    assert LastOpen(s6.toks, 2) == 0 by { assert LastOpen(s6.toks, 1) == 0; }
    assert s5.toks[2 := Token(Array, 5, 10, 1)] == s6.toks;
    assert Step(js, JSON_TOKEN_SIZE, s5) == Next(s6);
    var s7 := State(11, -1, [Token(Object, 0, 11, 1), t1, Token(Array, 5, 10, 1), t3]);
    assert LastOpen(s6.toks, 4) == 0 by { assert LastOpen(s6.toks, 3) == 0; }
    assert Step(js, JSON_TOKEN_SIZE, s6) == Next(s7);
    assert Run(js, JSON_TOKEN_SIZE, s7) == RunResult(s7, Ok(4)) by { ClosedAboveLastOpen(s7.toks, 4); }
    assert Run(js, JSON_TOKEN_SIZE, s6) == Run(js, JSON_TOKEN_SIZE, s7);
  }

  /** json_deserialize_parameter_message, with whatever the stack held in the token array. */
  method DeserializeParameters(js: string, tokens: array<Token>) returns (r: Decode)
    requires tokens.Length == JSON_TOKEN_SIZE
    modifies tokens
    ensures r == Deserialized(js)
  {
    var parser := new JsmnParser.Parser();
    assert parser.Abs(tokens) == Init;
    var result := parser.Parse(js, tokens);
    if result.Err? || result.count < 1 || tokens[0].kind != Object || result.count >= JSON_TOKEN_SIZE {
      return Decoded(0, []);
    }
    TokensInText(js, JSON_TOKEN_SIZE);
    ghost var toks := parser.Abs(tokens).toks;
    assert toks == tokens[..result.count];
    var written: seq<Parameter> := [];
    var i := 1;
    while i < result.count
      invariant i >= 1
      invariant DecodeFrom(js, toks, 1, []) == DecodeFrom(js, toks, i, written)
      decreases result.count - i
    {
      assert tokens[i] == toks[i] && toks[i] in toks;
      if tokens[i].kind == String {
        var name := UpToNul(js[tokens[i].start..tokens[i].end]);
        if |name| >= PARAMETER_TYPE_SIZE {
          return Decoded(0, written);
        }
        if i + 1 >= result.count {
          return ReadsUnwrittenToken;
        }
        assert tokens[i + 1] == toks[i + 1] && toks[i + 1] in toks;
        var value := UpToNul(js[tokens[i + 1].start..tokens[i + 1].end]);
        if |value| >= PARAMETER_VALUE_SIZE {
          return Decoded(0, written);
        }
        written := written + [Parameter(name, value)];
      }
      i := i + 2;
    }
    r := Decoded(|written|, written);
  }

  // --- the round trip -------------------------------------------------------------------------------------

  /** Both parts can stand between quotes: the serializer copies them as they are, escapes included. */
  predicate Quotable(p: Parameter) { StringBody(p.name) && StringBody(p.value) }

  /** Fits the parameter struct: 31 characters for a name, 63 for a value. */
  predicate Fits(p: Parameter) { |p.name| < 32 && |p.value| < 64 }

  predicate AllQuotable(ps: seq<Parameter>) { forall i :: 0 <= i < |ps| ==> Quotable(ps[i]) }

  predicate AllFit(ps: seq<Parameter>) { forall i :: 0 <= i < |ps| ==> Fits(ps[i]) }

  /** The document that the serializer prints. */
  function Pairs(ps: seq<Parameter>, i: nat): Children
    requires i <= |ps|
    decreases |ps| - i
  {
    if i == |ps| then Nothing else Pair(ps[i].name, "", " ", JString(ps[i].value), "", "", Pairs(ps, i + 1))
  }

  /** snprintf stops in front of the first terminator. */
  lemma {:induction false} StopsAtNul(s: string)
    ensures var r := UpToNul(s);
      s[..|r|] == r && NoNul(r) && (|r| < |s| ==> s[|r|] == '\0')
    decreases |s|
  {
    if s != "" && s[0] != '\0' {
      StopsAtNul(s[1..]);
      assert s[..|UpToNul(s)|] == [s[0]] + s[1..][..|UpToNul(s[1..])|];
    }
  }

  lemma {:induction false} BodyHasNoNul(s: string)
    requires StringBody(s)
    ensures NoNul(s)
    decreases |s|
  {
    if s != [] {
      var n := if s[0] != '\\' then 1 else if Escaped(s[1]) then 2 else 6;
      BodyHasNoNul(s[n..]);
      assert s == s[..n] + s[n..];
      forall i | 0 <= i < n ensures s[i] != '\0' {
      }
    }
  }

  lemma BodyIsWhole(s: string)
    requires StringBody(s)
    ensures UpToNul(s) == s
  {
    BodyHasNoNul(s);
    StopsAtNul(s);
    assert s[..|s|] == s;
  }

  lemma {:induction false} PairsWellFormed(ps: seq<Parameter>, i: nat)
    requires i <= |ps| && AllQuotable(ps)
    ensures WellFormedChildren(Pairs(ps, i), true)
    decreases |ps| - i
  {
    if i < |ps| {
      assert Quotable(ps[i]);
      PairsWellFormed(ps, i + 1);
    }
  }

  lemma PieceText(name: string, value: string, tail: string)
    ensures (Label(name, "", " ") + Quoted(value)) + ("" + tail) == Quoted(name) + (": " + (Quoted(value) + tail))
  {
    assert "" + (":" + " ") == ": ";
    assert "" + tail == tail;
  }

  lemma CommaText(name: string, value: string, comma: string, rest: string)
    ensures Quoted(name) + (": " + (Quoted(value) + (comma + ("" + rest))))
      == Quoted(name) + (": " + (Quoted(value) + comma)) + rest
  {
    assert "" + rest == rest;
  }

  lemma {:induction false} PiecesArePrinted(ps: seq<Parameter>, i: nat)
    requires i <= |ps|
    ensures PrintChildren(Pairs(ps, i)) == Pieces(ps, i)
    decreases |ps| - i
  {
    if i < |ps| {
      PiecesArePrinted(ps, i + 1);
      PairPrinted(ps, i, PrintTail("", Pairs(ps, i + 1)));
      if i + 1 < |ps| {
        CommaText(ps[i].name, ps[i].value, ",", Pieces(ps, i + 1));
      } else {
        assert Piece(ps, i) + "" == Piece(ps, i);
      }
    }
  }

  lemma PairPrinted(ps: seq<Parameter>, i: nat, tail: string)
    requires i < |ps| && tail == PrintTail("", Pairs(ps, i + 1))
    ensures PrintChildren(Pairs(ps, i)) == Quoted(ps[i].name) + (": " + (Quoted(ps[i].value) + tail))
  {
    var cs := Pairs(ps, i);
    assert PrintEntry(cs) == Label(ps[i].name, "", " ") + Quoted(ps[i].value);
    PieceText(ps[i].name, ps[i].value, tail);
  }

  lemma {:induction false} AtSlice(js: string, p: nat, s: string)
    requires At(js, p, s) && p <= |js|
    ensures p + |s| <= |js| && js[p..p + |s|] == s
    decreases |s|
  {
    if s != "" {
      AtSlice(js, p + 1, s[1..]);
      assert js[p..p + |s|] == [js[p]] + js[p + 1..p + 1 + |s[1..]|];
    }
  }

  lemma QuotedSlice(js: string, p: nat, s: string, tail: string)
    requires At(js, p, Quoted(s) + tail) && StringBody(s) && p <= |js|
    ensures p + 2 + |s| <= |js| && UpToNul(js[p + 1..p + 1 + |s|]) == s && At(js, p + 2 + |s|, tail)
  {
    AtSplit(js, p, Quoted(s), tail);
    AtSlice(js, p, Quoted(s));
    AtSplit(js, p, "\"", s + "\"");
    AtSplit(js, p + 1, s, "\"");
    AtSlice(js, p + 1, s);
    BodyIsWhole(s);
  }

  /** The text of one pair: where its name and its value stand. */
  lemma PieceSlices(js: string, off: nat, name: string, value: string, sep: string)
    requires off <= |js| && At(js, off, Quoted(name) + (": " + (Quoted(value) + sep)))
    requires StringBody(name) && StringBody(value)
    ensures var voff := off + 4 + |name|;
      && voff + 2 + |value| + |sep| <= |js|
      && UpToNul(js[off + 1..off + 1 + |name|]) == name
      && UpToNul(js[voff + 1..voff + 1 + |value|]) == value
  {
    QuotedSlice(js, off, name, ": " + (Quoted(value) + sep));
    var voff := off + 4 + |name|;
    AtSplit(js, off + 2 + |name|, ": ", Quoted(value) + sep);
    AtSlice(js, off + 2 + |name|, ": ");
    QuotedSlice(js, voff, value, sep);
    AtSlice(js, voff + 2 + |value|, sep);
  }

  /** The tokens of the pairs from the k-th on, which stand at `off`. */
  function PairTokens(ps: seq<Parameter>, k: nat, off: nat): (r: seq<Token>)
    requires k <= |ps|
    ensures |r| == 2 * (|ps| - k)
    decreases |ps| - k
  {
    if k == |ps| then []
    else
      var n, v := |ps[k].name|, |ps[k].value|;
      [Token(String, off + 1, off + 1 + n, 1), Token(String, off + 5 + n, off + 5 + n + v, 0)]
        + PairTokens(ps, k + 1, off + 7 + n + v)
  }

  lemma {:induction false} PairsHaveTokens(ps: seq<Parameter>, k: nat, off: nat)
    requires k <= |ps|
    ensures ChildTokens(Pairs(ps, k), off) == PairTokens(ps, k, off)
    decreases |ps| - k
  {
    if k < |ps| {
      var cs := Pairs(ps, k);
      var n, v := |ps[k].name|, |ps[k].value|;
      assert |Label(ps[k].name, "", " ")| == n + 4;
      assert Print(cs.value) == Quoted(ps[k].value);
      assert |PrintEntry(cs)| == 6 + n + v;
      assert EntryTokens(cs, off) ==
             [Token(String, off + 1, off + 1 + n, 1), Token(String, off + 5 + n, off + 5 + n + v, 0)];
      PairsHaveTokens(ps, k + 1, off + 7 + |ps[k].name| + |ps[k].value|);
    }
  }

  lemma NextSlots(toks: seq<Token>, i: nat, ps: seq<Parameter>, k: nat, off: nat)
    requires k < |ps| && i <= |toks| && toks[i..] == PairTokens(ps, k, off)
    ensures var n, v := |ps[k].name|, |ps[k].value|;
      && i + 2 <= |toks|
      && toks[i] == Token(String, off + 1, off + 1 + n, 1)
      && toks[i + 1] == Token(String, off + 5 + n, off + 5 + n + v, 0)
      && toks[i + 2..] == PairTokens(ps, k + 1, off + 7 + n + v)
  {
    var slots := PairTokens(ps, k, off);
    assert toks[i] == slots[0] && toks[i + 1] == slots[1] && toks[i + 2..] == slots[2..];
  }

  /** The k-th pair in the text, and where the next one stands. */
  lemma PairInText(js: string, ps: seq<Parameter>, k: nat, off: nat) returns (next: nat)
    requires AllQuotable(ps) && k < |ps| && off <= |js| && At(js, off, Pieces(ps, k))
    ensures next == off + 7 + |ps[k].name| + |ps[k].value|
    ensures var n, v := |ps[k].name|, |ps[k].value|;
      && off + 6 + n + v <= |js|
      && UpToNul(js[off + 1..off + 1 + n]) == ps[k].name
      && UpToNul(js[off + 5 + n..off + 5 + n + v]) == ps[k].value
    ensures k + 1 < |ps| ==> next <= |js| && At(js, next, Pieces(ps, k + 1))
  {
    var sep := if |ps| > 1 && k < |ps| - 1 then "," else "";
    next := off + 7 + |ps[k].name| + |ps[k].value|;
    assert Quotable(ps[k]);
    AtSplit(js, off, Piece(ps, k), Pieces(ps, k + 1));
    PieceSlices(js, off, ps[k].name, ps[k].value, sep);
  }

  /** One turn of the decoder: the k-th pair is copied, and the next one stands behind it. */
  lemma PairDecodes(js: string, toks: seq<Token>, i: nat, ps: seq<Parameter>, k: nat, off: nat)
    returns (next: nat)
    requires AllQuotable(ps) && k < |ps| && off <= |js| && At(js, off, Pieces(ps, k))
    requires forall t :: t in toks ==> InText(js, t)
    requires i <= |toks| && toks[i..] == PairTokens(ps, k, off)
    ensures i + 2 <= |toks| && DecodeFrom(js, toks, i, ps[..k])
      == if Fits(ps[k]) then DecodeFrom(js, toks, i + 2, ps[..k + 1]) else Decoded(0, ps[..k])
    ensures next == off + 7 + |ps[k].name| + |ps[k].value| && toks[i + 2..] == PairTokens(ps, k + 1, next)
    ensures k + 1 < |ps| ==> next <= |js| && At(js, next, Pieces(ps, k + 1))
  {
    next := PairInText(js, ps, k, off);
    NextSlots(toks, i, ps, k, off);
    OnePair(js, toks, i, ps[..k], ps[k]);
    assert ps[..k] + [ps[k]] == ps[..k + 1];
  }

  lemma OnePair(js: string, toks: seq<Token>, i: nat, written: seq<Parameter>, p: Parameter)
    requires forall t :: t in toks ==> InText(js, t)
    requires i + 1 < |toks| && toks[i].kind == String
    requires TokenText(js, toks[i]) == p.name && TokenText(js, toks[i + 1]) == p.value
    ensures DecodeFrom(js, toks, i, written)
      == if Fits(p) then DecodeFrom(js, toks, i + 2, written + [p]) else Decoded(0, written)
  {
    assert Parameter(p.name, p.value) == p;
  }

  /** What becomes of a printed list from its k-th parameter on: a name or a value that does not fit its struct
      rejects the message, with the parameters in front of it copied. */
  function ReadFrom(ps: seq<Parameter>, k: nat): Decode
    requires k <= |ps|
    decreases |ps| - k
  {
    if k == |ps| then Decoded(|ps|, ps) else if !Fits(ps[k]) then Decoded(0, ps[..k]) else ReadFrom(ps, k + 1)
  }

  /** Decoding from the k-th pair on. */
  lemma {:induction false} PairsDecode(js: string, toks: seq<Token>, i: nat, ps: seq<Parameter>, k: nat, off: nat)
    requires AllQuotable(ps) && k <= |ps|
    requires k < |ps| ==> off <= |js| && At(js, off, Pieces(ps, k))
    requires forall t :: t in toks ==> InText(js, t)
    requires i <= |toks| && toks[i..] == PairTokens(ps, k, off)
    ensures DecodeFrom(js, toks, i, ps[..k]) == ReadFrom(ps, k)
    decreases |ps| - k
  {
    if k < |ps| {
      var next := PairDecodes(js, toks, i, ps, k, off);
      if Fits(ps[k]) {
        PairsDecode(js, toks, i + 2, ps, k + 1, next);
      }
    } else {
      assert ps[..k] == ps;
    }
  }

  function Document(ps: seq<Parameter>): Json { JObject("", Pairs(ps, 0)) }

  lemma DocumentIsPrinted(ps: seq<Parameter>)
    ensures Print(Document(ps)) == Serialized(ps)
  {
    PiecesArePrinted(ps, 0);
  }

  lemma DocumentTokens(ps: seq<Parameter>, length: nat)
    requires |Print(Document(ps))| == length
    ensures Tokens(Document(ps), 0) == [Token(Object, 0, length, |ps|)] + PairTokens(ps, 0, 1)
  {
    PairsHaveTokens(ps, 0, 1);
    PairsCount(ps, 0);
  }

  /** The serializer prints a well-formed document. */
  lemma PrintsDocument(ps: seq<Parameter>) returns (v: Json)
    requires AllQuotable(ps)
    ensures WellFormedJson(v) && Print(v) == Serialized(ps) && Tokens(v, 0) == PrintedTokens(ps)
  {
    v := Document(ps);
    PairsWellFormed(ps, 0);
    DocumentIsPrinted(ps);
    DocumentTokens(ps, |Serialized(ps)|);
  }

  /** The tokenizer on a printed list: one token for the object and two for every parameter. */
  lemma PrintedParses(js: string, cap: nat, ps: seq<Parameter>)
    requires AllQuotable(ps) && At(js, 0, Serialized(ps)) && !HasMore(js, |Serialized(ps)|) && cap >= 2 * |ps| + 1
    ensures Run(js, cap, Init)
      == RunResult(State(|Serialized(ps)|, -1, PrintedTokens(ps)), Ok(2 * |ps| + 1))
  {
    var v := PrintsDocument(ps);
    BareDocumentParses(js, cap, v, Serialized(ps));
  }

  function PrintedTokens(ps: seq<Parameter>): seq<Token> {
    [Token(Object, 0, |Serialized(ps)|, |ps|)] + PairTokens(ps, 0, 1)
  }

  lemma {:induction false} PairsCount(ps: seq<Parameter>, k: nat)
    requires k <= |ps|
    ensures Count(Pairs(ps, k)) == |ps| - k
    decreases |ps| - k
  {
    if k < |ps| {
      PairsCount(ps, k + 1);
    }
  }

  lemma {:induction false} ReadsAll(ps: seq<Parameter>, k: nat)
    requires k <= |ps| && forall i :: 0 <= i < k ==> Fits(ps[i])
    ensures AllFit(ps) ==> ReadFrom(ps, k) == Decoded(|ps|, ps)
    ensures !AllFit(ps) ==> exists j: nat :: k <= j && RejectsAt(ps, j) && ReadFrom(ps, k) == Decoded(0, ps[..j])
    decreases |ps| - k
  {
    if k < |ps| {
      if Fits(ps[k]) {
        ReadsAll(ps, k + 1);
      } else {
        assert RejectsAt(ps, k);
      }
    }
  }

  /** The j-th parameter is the first that does not fit. */
  predicate RejectsAt(ps: seq<Parameter>, j: nat) {
    j < |ps| && !Fits(ps[j]) && forall i :: 0 <= i < j ==> Fits(ps[i])
  }

  /** Parameters that can stand between quotes, printed and followed by a terminator or by the end of the buffer, are
      read back with names, values, order and count if and only if there are at most 15 and each fits its struct; the
      first that does not fit rejects the message, and more than 15 are not looked at. */
  lemma RoundTrip(js: string, ps: seq<Parameter>)
    requires AllQuotable(ps) && At(js, 0, Serialized(ps)) && !HasMore(js, |Serialized(ps)|)
    ensures |ps| <= 15 && AllFit(ps) ==> Deserialized(js) == Decoded(|ps|, ps)
    ensures |ps| <= 15 && !AllFit(ps) ==> exists j: nat :: RejectsAt(ps, j) && Deserialized(js) == Decoded(0, ps[..j])
    ensures |ps| > 15 ==> Deserialized(js) == Decoded(0, [])
  {
    if |ps| <= 15 {
      PrintedParses(js, 32, ps);
      ReadsBack(js, ps);
      ReadsAll(ps, 0);
    } else {
      PrintedParses(js, 2 * |ps| + 1, ps);
      JsmnCounting.CountIsExact(js, 2 * |ps| + 1, Init);
      JsmnCounting.CountIsTheNeed(js, JSON_TOKEN_SIZE);
    }
  }

  lemma ReadsBack(js: string, ps: seq<Parameter>)
    requires AllQuotable(ps) && At(js, 0, Serialized(ps)) && |ps| <= 15
    requires Run(js, JSON_TOKEN_SIZE, Init)
      == RunResult(State(|Serialized(ps)|, -1, PrintedTokens(ps)), Ok(2 * |ps| + 1))
    ensures Deserialized(js) == ReadFrom(ps, 0)
  {
    TokensInText(js, JSON_TOKEN_SIZE);
    var toks := PrintedTokens(ps);
    assert toks[1..] == PairTokens(ps, 0, 1);
    AtSplit(js, 0, "{" + Pieces(ps, 0), "}");
    AtSplit(js, 0, "{", Pieces(ps, 0));
    assert ps[..0] == [];
    PairsDecode(js, toks, 1, ps, 0, 1);
  }

  /** Fifteen parameters always fit an empty payload, so what can be read back is never refused and never overruns. */
  lemma FifteenFit(ps: seq<Parameter>)
    requires AllFit(ps) && |ps| <= 15
    ensures PrintInto("", ps) == Done(Serialized(ps))
  {
    PiecesBound(ps, 0);
    PrintedExactly("", ps);
    assert "" + Serialized(ps) == Serialized(ps);
  }

  lemma {:induction false} PiecesBound(ps: seq<Parameter>, i: nat)
    requires AllFit(ps) && i <= |ps|
    ensures |Pieces(ps, i)| <= 101 * (|ps| - i)
    decreases |ps| - i
  {
    if i < |ps| {
      assert Fits(ps[i]);
      PiecesBound(ps, i + 1);
    }
  }

  lemma TwoPieces(ps: seq<Parameter>)
    requires ps == [Parameter("a", "b"), Parameter("c", "d")]
    ensures Piece(ps, 0) == "\"a\": \"b\"," && Piece(ps, 1) == "\"c\": \"d\""
  {
  }

  lemma PiecesOfTwo(ps: seq<Parameter>)
    requires |ps| == 2
    ensures Serialized(ps) == "{" + (Piece(ps, 0) + (Piece(ps, 1) + "")) + "}"
  {
    assert Pieces(ps, 1) == Piece(ps, 1) + Pieces(ps, 2);
    assert Pieces(ps, 0) == Piece(ps, 0) + Pieces(ps, 1);
  }

  /** What is printed for two parameters. */
  lemma TwoPrinted(ps: seq<Parameter>)
    requires ps == [Parameter("a", "b"), Parameter("c", "d")]
    ensures Serialized(ps) == "{\"a\": \"b\",\"c\": \"d\"}"
  {
    TwoPieces(ps);
    PiecesOfTwo(ps);
  }
}
