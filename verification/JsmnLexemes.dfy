/** Exactly which texts sources/utility/jsmn.c takes as a string or as an unquoted word, which error it gives for the
    others, and where a token begins: in both directions, in terms of the characters themselves. */
module JsmnLexemes {
  import opened JsmnSpec
  import opened JsmnGrammar

  // --- strings --------------------------------------------------------------------------------------------

  /** A backslash at `q` with something else behind it than one of the eight letters or u and hexadecimal digits. */
  predicate BadEscape(js: string, q: nat) {
    && q + 1 < |js| && js[q] == '\\' && !Escaped(js[q + 1])
    && (js[q + 1] == 'u' ==> BadDigit(js, q + 2, 4))
  }

  /** One of the next `k` characters is no hexadecimal digit, and the text does not end before it. */
  predicate BadDigit(js: string, p: nat, k: nat)
    decreases k
  {
    k > 0 && p < |js| && js[p] != '\0' && (Hexadecimal(js[p]) ==> BadDigit(js, p + 1, k - 1))
  }

  /** The text ends at `q`, or inside an escape that begins there. */
  predicate Unfinished(js: string, q: nat) {
    || q >= |js| || js[q] == '\0'
    || (js[q] == '\\' && (q + 1 == |js| || (js[q + 1] == 'u' && DigitsThenEnd(js, q + 2, 4))))
  }

  /** Fewer than `k` hexadecimal digits and then the end of the text. */
  predicate DigitsThenEnd(js: string, p: nat, k: nat)
    decreases k
  {
    k > 0 && (p >= |js| || js[p] == '\0' || (Hexadecimal(js[p]) && DigitsThenEnd(js, p + 1, k - 1)))
  }

  /** What the scan says at the place where the inside of a string stops. */
  predicate Verdict(js: string, q: nat, r: Scan) {
    match r
    case Found(at) => at == q && q < |js| && js[q] == '"'
    case Bad(Inval) => BadEscape(js, q)
    case Bad(Part) => Unfinished(js, q)
    case Bad(NoMem) => false
  }

  lemma HexIsHexadecimal(c: char)
    ensures IsHex(c) == Hexadecimal(c)
  {
  }

  lemma {:induction false} HexScanIsExact(js: string, p: nat, k: nat)
    ensures ScanHex(js, p, k).Bad? == BadDigit(js, p, k)
    ensures ScanHex(js, p, k).Found? && !DigitsThenEnd(js, p, k)
        ==> ScanHex(js, p, k) == Found(p + k) && (p <= |js| ==> p + k <= |js|)
            && forall i :: p <= i < p + k && p <= |js| ==> Hexadecimal(js[i])
    ensures DigitsThenEnd(js, p, k) && p <= |js|
        ==> ScanHex(js, p, k).Found? && !HasMore(js, ScanHex(js, p, k).at)
    decreases k
  {
    if k > 0 && HasMore(js, p) {
      HexIsHexadecimal(js[p]);
      if IsHex(js[p]) {
        HexScanIsExact(js, p + 1, k - 1);
      }
    }
  }

  /** A string scan reads a string body of section 7 (control characters included) as far as it goes, and what it
      says is what stands there: a quote, a bad escape, or the end of the text. */
  lemma {:induction false} StringScanIsExact(js: string, p: nat) returns (q: nat)
    requires p <= |js|
    ensures p <= q <= |js| && StringBody(js[p..q]) && Verdict(js, q, ScanString(js, p))
    decreases |js| - p
  {
    q := p;
    if HasMore(js, p) && js[p] != '"' {
      if js[p] != '\\' {
        q := StringScanIsExact(js, p + 1);
        var s := js[p..q];
        assert s[0] == js[p] && s[1..] == js[p + 1..q];
      } else if p + 1 < |js| {
        q := EscapeScanIsExact(js, p);
      } else {
        assert ScanString(js, p + 1) == Bad(Part);
      }
    }
  }

  lemma {:induction false} EscapeScanIsExact(js: string, p: nat) returns (q: nat)
    requires p + 1 < |js| && js[p] == '\\'
    ensures p <= q <= |js| && StringBody(js[p..q]) && Verdict(js, q, ScanString(js, p))
    decreases |js| - p, 0
  {
    q := p;
    if Escaped(js[p + 1]) {
      q := StringScanIsExact(js, p + 2);
      var s := js[p..q];
      assert s[0] == '\\' && s[1] == js[p + 1] && s[2..] == js[p + 2..q];
    } else if js[p + 1] == 'u' {
      HexScanIsExact(js, p + 2, 4);
      if DigitsThenEnd(js, p + 2, 4) {
        assert ScanString(js, p) == ScanString(js, ScanHex(js, p + 2, 4).at) == Bad(Part);
      } else if !BadDigit(js, p + 2, 4) {
        q := StringScanIsExact(js, p + 6);
        var s := js[p..q];
        assert s[0] == '\\' && s[1] == 'u' && s[6..] == js[p + 6..q];
        assert s[2] == js[p + 2] && s[3] == js[p + 3] && s[4] == js[p + 4] && s[5] == js[p + 5];
      }
    }
  }

  // --- unquoted words -------------------------------------------------------------------------------------

  /** What may stand behind an unquoted word. */
  predicate EndsWord(js: string, q: nat) {
    || q >= |js| || js[q] == '\0' || Blank(js[q])
    || js[q] == ':' || js[q] == ',' || js[q] == ']' || js[q] == '}'
  }

  /** The scan of an unquoted word reads all characters from ! to ~ that do not end it, and fails exactly at a control
      character or one outside ASCII. */
  lemma {:induction false} PrimitiveScanIsExact(js: string, p: nat) returns (q: nat)
    requires p <= |js|
    ensures p <= q <= |js| && forall i :: p <= i < q ==> Bare(js[i])
    ensures EndsWord(js, q) || !Bare(js[q])
    ensures ScanPrimitive(js, p) == if EndsWord(js, q) then Found(q) else Bad(Inval)
    decreases |js| - p
  {
    q := p;
    if !EndsWord(js, p) && Bare(js[p]) {
      q := PrimitiveScanIsExact(js, p + 1);
    }
  }

  // --- the first character of a token ---------------------------------------------------------------------

  /** Which character does what: one of the six of section 2, a quote, white space, or the start of a word. */
  lemma FirstCharacter(js: string, cap: nat, st: State)
    requires st.WellFormed() && HasMore(js, st.pos)
    ensures var c := js[st.pos];
      && (c == '{' ==> Step(js, cap, st) == OpenStep(cap, st, Object))
      && (c == '[' ==> Step(js, cap, st) == OpenStep(cap, st, Array))
      && (c == '}' ==> Step(js, cap, st) == CloseStep(st, Object))
      && (c == ']' ==> Step(js, cap, st) == CloseStep(st, Array))
      && (c == ',' ==> Step(js, cap, st) == CommaStep(st))
      && (c == ':' ==> Step(js, cap, st) == Next(State(st.pos + 1, |st.toks| - 1, st.toks)))
      && (Blank(c) ==> Step(js, cap, st) == Next(State(st.pos + 1, st.toksuper, st.toks)))
      && (c == '"' ==> Step(js, cap, st) == StringStep(js, cap, st))
      && (Bare(c) && c != '{' && c != '[' && c != '"' ==> Step(js, cap, st) == PrimitiveStep(js, cap, st))
      && (!Bare(c) && !Blank(c) && c != ':' && c != ',' && c != ']' && c != '}'
          ==> Step(js, cap, st) == Stop(Inval))
  {
  }
}
