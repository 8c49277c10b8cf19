/** jsmn_parse as it runs: a parser object and a token array updated in place, proved equal to the step
    relation of JsmnSpec in both modes. */
module JsmnParser {
  import opened JsmnSpec

  class Parser {
    var pos: nat
    var toknext: nat
    var toksuper: int

    ghost predicate Valid(tokens: array?<Token>)
      reads this
    {
      -1 <= toksuper < toknext && (tokens != null ==> toknext <= tokens.Length)
    }

    ghost function Abs(tokens: array<Token>): (st: State)
      requires Valid(tokens)
      reads this, tokens
      ensures st.WellFormed()
    {
      State(pos, toksuper, tokens[..toknext])
    }

    /** jsmn_init */
    constructor ()
      ensures pos == 0 && toknext == 0 && toksuper == -1
    {
      pos, toknext, toksuper := 0, 0, -1;
    }

    /** The next free token, cleared; -1 stands for the null pointer. */
    method AllocToken(tokens: array<Token>) returns (i: int)
      requires Valid(tokens)
      modifies `toknext, tokens
      ensures if old(toknext) >= tokens.Length
        then i == -1 && toknext == old(toknext) && tokens[..] == old(tokens[..])
        else i == old(toknext) && toknext == i + 1
             && tokens[..] == old(tokens[..])[i := Token(old(tokens[i].kind), -1, -1, 0)]
    {
      if toknext >= tokens.Length {
        return -1;
      }
      i := toknext;
      toknext := toknext + 1;
      tokens[i] := tokens[i].(start := -1, end := -1);
      tokens[i] := tokens[i].(size := 0);
    }

    method FillToken(tokens: array<Token>, i: nat, kind: TokenType, start: int, end: int)
      requires i < tokens.Length
      modifies tokens
      ensures tokens[..] == old(tokens[..])[i := Token(kind, start, end, 0)]
    {
      tokens[i] := Token(kind, start, end, 0);
    }

    method ParsePrimitive(js: string, tokens: array?<Token>) returns (r: Outcome)
      requires Valid(tokens) && HasMore(js, pos) && !IsDelimiter(js[pos])
      modifies `pos, `toknext, tokens
      ensures Valid(tokens)
      ensures LexemeRead(ScanPrimitive(js, old(pos)), Primitive, old(pos), -1, tokens, r)
    {
      var start := pos;
      while pos < |js| && js[pos] != '\0'
        invariant start <= pos <= |js|
        invariant pos == start ==> HasMore(js, pos) && !IsDelimiter(js[pos])
        invariant toknext == old(toknext) && (tokens != null ==> tokens[..] == old(tokens[..]))
        invariant ScanPrimitive(js, start) == ScanPrimitive(js, pos)
        decreases |js| - pos
      {
        if IsDelimiter(js[pos]) {
          break;
        }
        if js[pos] < 32 as char || js[pos] >= 127 as char {
          pos := start;
          return Err(Inval);
        }
        pos := pos + 1;
      }
      assert ScanPrimitive(js, start) == Found(pos);
      if tokens == null {
        pos := pos - 1;
        return Ok(0);
      }
      var token := AllocToken(tokens);
      if token == -1 {
        pos := start;
        return Err(NoMem);
      }
      FillToken(tokens, token, Primitive, start, pos);
      pos := pos - 1;
      r := Ok(0);
    }

    /** The part of jsmn_parse_string behind a backslash: stops on the last character of the escape. */
    method SkipEscape(js: string) returns (ok: bool)
      requires pos + 1 < |js|
      modifies `pos
      ensures var e := ScanEscape(js, old(pos));
        ok == e.Found? && (ok ==> pos == e.at - 1)
    {
      ghost var p := pos;
      pos := pos + 1;
      if IsEscape(js[pos]) {
      } else if js[pos] == 'u' {
        pos := pos + 1;
        var i := 0;
        while i < 4 && pos < |js| && js[pos] != '\0'
          invariant 0 <= i <= 4 && p + 2 <= pos <= |js|
          invariant ScanHex(js, p + 2, 4) == ScanHex(js, pos, 4 - i)
          decreases 4 - i
        {
          if !IsHex(js[pos]) {
            return false;
          }
          pos := pos + 1;
          i := i + 1;
        }
        assert ScanHex(js, p + 2, 4) == Found(pos);
        pos := pos - 1;
      } else {
        return false;
      }
      ok := true;
    }

    method ParseString(js: string, tokens: array?<Token>) returns (r: Outcome)
      requires Valid(tokens) && pos < |js|
      modifies `pos, `toknext, tokens
      ensures Valid(tokens)
      ensures LexemeRead(ScanString(js, old(pos) + 1), String, old(pos) + 1, 0, tokens, r)
    {
      var start := pos;
      pos := pos + 1;
      while pos < |js| && js[pos] != '\0'
        invariant start < pos <= |js|
        invariant ScanString(js, start + 1) == ScanString(js, pos)
        invariant toknext == old(toknext) && (tokens != null ==> tokens[..] == old(tokens[..]))
        decreases |js| - pos
      {
        var c := js[pos];
        if c == '"' {
          if tokens == null {
            return Ok(0);
          }
          var token := AllocToken(tokens);
          if token == -1 {
            pos := start;
            return Err(NoMem);
          }
          FillToken(tokens, token, String, start + 1, pos);
          return Ok(0);
        }
        if c == '\\' && pos + 1 < |js| {
          var ok := SkipEscape(js);
          if !ok {
            pos := start;
            return Err(Inval);
          }
        }
        pos := pos + 1;
      }
      pos := start;
      r := Err(Part);
    }

    /** What both lexeme parsers promise: on success the scan stands on the last character consumed (`back`
        is -1 when the character that ended the scan is not consumed), and one token was appended; on failure
        nothing has changed. */
    twostate predicate LexemeRead(s: Scan, kind: TokenType, start: nat, back: int, tokens: array?<Token>, r: Outcome)
      reads this, tokens
    {
      && toksuper == old(toksuper)
      && (s.Bad? ==> r == Err(s.error))
      && (s.Found? && tokens != null && old(toknext) >= tokens.Length ==> r == Err(NoMem))
      && (r.Ok? <==> s.Found? && (tokens != null ==> old(toknext) < tokens.Length))
      && (r.Err? ==> pos == old(pos) && toknext == old(toknext) && (tokens != null ==> tokens[..] == old(tokens[..])))
      && (r.Ok? ==>
            && pos == s.at + back
            && (tokens == null ==> toknext == old(toknext))
            && (tokens != null ==>
                  && old(toknext) < tokens.Length && toknext == old(toknext) + 1
                  && tokens[..] == old(tokens[..])[old(toknext) := Token(kind, start, s.at, 0)]))
    }

    method OpenBracket(kind: TokenType, tokens: array<Token>) returns (ok: bool)
      requires Valid(tokens)
      modifies this, tokens
      ensures Valid(tokens) && pos == old(pos)
      ensures var s := OpenStep(tokens.Length, old(Abs(tokens)), kind);
        if ok then s == Next(Abs(tokens).(pos := pos + 1)) else s == Stop(NoMem) && Abs(tokens) == old(Abs(tokens))
    {
      var token := AllocToken(tokens);
      if token == -1 {
        return false;
      }
      if toksuper != -1 {
        tokens[toksuper] := tokens[toksuper].(size := tokens[toksuper].size + 1);
      }
      tokens[token] := tokens[token].(kind := kind);
      tokens[token] := tokens[token].(start := pos);
      toksuper := toknext - 1;
      ok := true;
    }

    method CloseBracket(kind: TokenType, tokens: array<Token>) returns (ok: bool)
      requires Valid(tokens)
      modifies `toksuper, tokens
      ensures Valid(tokens)
      ensures var s := CloseStep(old(Abs(tokens)), kind);
        if ok then s == Next(Abs(tokens).(pos := pos + 1)) else s == Stop(Inval) && Abs(tokens) == old(Abs(tokens))
    {
      ghost var toks := tokens[..toknext];
      var i := toknext - 1;
      while i >= 0
        invariant -1 <= i < toknext
        invariant LastOpen(toks, |toks|) == LastOpen(toks, i + 1)
        invariant tokens[..] == old(tokens[..]) && toksuper == old(toksuper)
      {
        if tokens[i].start != -1 && tokens[i].end == -1 {
          assert toks[i].IsOpen();
          if tokens[i].kind != kind {
            return false;
          }
          toksuper := -1;
          tokens[i] := tokens[i].(end := pos + 1);
          break;
        }
        i := i - 1;
      }
      if i == -1 {
        return false;
      }
      assert i == LastOpen(toks, |toks|);
      ghost var closed := toks[i := toks[i].(end := pos + 1)];
      assert tokens[..toknext] == closed;
      ghost var top := i + 1;
      while i >= 0
        invariant -1 <= i < toknext
        invariant tokens[..toknext] == closed && toksuper == -1
        invariant LastOpen(closed, top) == LastOpen(closed, i + 1)
      {
        if tokens[i].start != -1 && tokens[i].end == -1 {
          assert closed[i].IsOpen();
          toksuper := i;
          break;
        }
        i := i - 1;
      }
      ok := true;
    }

    method Comma(tokens: array<Token>)
      requires Valid(tokens)
      modifies `toksuper
      ensures Valid(tokens)
      ensures CommaStep(old(Abs(tokens))) == Next(Abs(tokens).(pos := pos + 1))
    {
      ghost var toks := tokens[..toknext];
      if toksuper != -1 && tokens[toksuper].kind != Array && tokens[toksuper].kind != Object {
        var i := toknext - 1;
        while i >= 0
          invariant -1 <= i < toknext && toksuper == old(toksuper)
          invariant LastOpenContainer(toks, |toks|) == LastOpenContainer(toks, i + 1)
        {
          if tokens[i].kind == Array || tokens[i].kind == Object {
            if tokens[i].start != -1 && tokens[i].end == -1 {
              assert toks[i].IsOpen() && toks[i].IsContainer();
              toksuper := i;
              break;
            }
          }
          i := i - 1;
        }
      }
    }

    /** A string or a primitive, and its place among the children of the superior token. */
    method ParseLexeme(js: string, tokens: array?<Token>) returns (r: Outcome)
      requires Valid(tokens) && HasMore(js, pos) && (js[pos] == '"' || !IsDelimiter(js[pos]))
      modifies this, tokens
      ensures Valid(tokens)
      ensures tokens != null ==>
        Performed(if js[old(pos)] == '"' then StringStep(js, tokens.Length, old(Abs(tokens)))
                  else PrimitiveStep(js, tokens.Length, old(Abs(tokens))), old(Abs(tokens)), tokens, r)
      ensures tokens == null ==> toknext == old(toknext) && toksuper == old(toksuper)
      ensures tokens == null ==>
        match if js[old(pos)] == '"' then ScanString(js, old(pos) + 1) else ScanPrimitive(js, old(pos))
        case Bad(e) => r == Err(e) && pos == old(pos)
        case Found(q) => r.Ok? && pos + 1 == if js[old(pos)] == '"' then q + 1 else q
    {
      if js[pos] == '"' {
        r := ParseString(js, tokens);
      } else {
        r := ParsePrimitive(js, tokens);
      }
      if r.Err? {
        return;
      }
      if toksuper != -1 && tokens != null {
        tokens[toksuper] := tokens[toksuper].(size := tokens[toksuper].size + 1);
      }
    }

    /** The object and its array are where the step `s` from `before` leads; the scan position is advanced by
        the loop afterwards. */
    ghost predicate Performed(s: StepResult, before: State, tokens: array<Token>, r: Outcome)
      requires Valid(tokens)
      reads this, tokens
    {
      match s
      case Stop(e) => r == Err(e) && Abs(tokens) == before
      case Next(st) => r.Ok? && st == Abs(tokens).(pos := pos + 1)
    }

    /** The switch over one character of jsmn_parse. */
    method ParseChar(js: string, tokens: array?<Token>, count: nat) returns (r: Outcome)
      requires Valid(tokens) && HasMore(js, pos)
      modifies this, tokens
      ensures Valid(tokens)
      ensures tokens != null ==>
        && Performed(Step(js, tokens.Length, old(Abs(tokens))), old(Abs(tokens)), tokens, r)
        && (r.Ok? ==> r.count - count == toknext - old(toknext))
      ensures tokens == null ==>
        toknext == old(toknext) && CountStep(js, old(pos), count) == CountResult(if r.Ok? then pos + 1 else pos, r)
    {
      r := Ok(count);
      var c := js[pos];
      if c == '{' || c == '[' {
        if tokens != null {
          var ok := OpenBracket(if c == '{' then Object else Array, tokens);
          if !ok {
            return Err(NoMem);
          }
        }
        r := Ok(count + 1);
      } else if c == '}' || c == ']' {
        if tokens != null {
          var ok := CloseBracket(if c == '}' then Object else Array, tokens);
          if !ok {
            return Err(Inval);
          }
        }
      } else if c == '\t' || c == '\r' || c == '\n' || c == ' ' {
      } else if c == ':' {
        toksuper := toknext - 1;
      } else if c == ',' {
        if tokens != null {
          Comma(tokens);
        }
      } else {
        r := ParseLexeme(js, tokens);
        if r.Ok? {
          r := Ok(count + 1);
        }
      }
    }

    /** Whether an object or array is still unmatched. */
    method AnyOpen(tokens: array<Token>) returns (open: bool)
      requires Valid(tokens)
      ensures open <==> LastOpen(Abs(tokens).toks, toknext) != -1
    {
      ghost var toks := tokens[..toknext];
      var i := toknext - 1;
      while i >= 0
        invariant -1 <= i < toknext
        invariant LastOpen(toks, |toks|) == LastOpen(toks, i + 1)
      {
        if tokens[i].start != -1 && tokens[i].end == -1 {
          assert toks[i].IsOpen();
          return true;
        }
        i := i - 1;
      }
      open := false;
    }

    /** jsmn_parse */
    method Parse(js: string, tokens: array?<Token>) returns (r: Outcome)
      requires Valid(tokens)
      modifies this, tokens
      ensures Valid(tokens)
      ensures tokens != null ==> Run(js, tokens.Length, old(Abs(tokens))) == RunResult(Abs(tokens), r)
      ensures tokens == null ==> CountRun(js, old(pos), old(toknext)) == CountResult(pos, r) && toknext == old(toknext)
    {
      var count := toknext;
      while pos < |js| && js[pos] != '\0'
        invariant Valid(tokens)
        invariant tokens != null ==>
          count == toknext && Run(js, tokens.Length, old(Abs(tokens))) == Run(js, tokens.Length, Abs(tokens))
        invariant tokens == null ==>
          toknext == old(toknext) && CountRun(js, old(pos), old(toknext)) == CountRun(js, pos, count)
        decreases |js| - pos
      {
        r := ParseChar(js, tokens, count);
        if r.Err? {
          return;
        }
        count := r.count;
        pos := pos + 1;
      }
      if tokens != null {
        var open := AnyOpen(tokens);
        if open {
          return Err(Part);
        }
      }
      r := Ok(count);
    }
  }
}
