/** sources/utility/base64.c: RFC 4648 section 4, with the line breaks of RFC 2045 section 6.8 on request. */
module Base64 {
  import opened Prelude

  type octet = bv8

  const LINE := 76

  // --- the alphabet ---------------------------------------------------------------------------------------

  /** The character table, written as its ranges. */
  function Letter(k: int): char
    requires 0 <= k < 64
  {
    if k < 26 then 'A' + k as char
    else if k < 52 then 'a' + (k - 26) as char
    else if k < 62 then '0' + (k - 52) as char
    else if k == 62 then '+'
    else '/'
  }

  function Charset(i: octet): char
    requires i < 64
  {
    Letter(i as int)
  }

  function Value(ch: char): nat {
    if 'A' <= ch <= 'Z' then ch as int - 'A' as int
    else if 'a' <= ch <= 'z' then ch as int - 'a' as int + 26
    else if '0' <= ch <= '9' then ch as int - '0' as int + 52
    else if ch == '+' then 62
    else if ch == '/' then 63
    else ch as int
  }

  /** revchar: characters outside the alphabet are their own value. */
  function Revchar(ch: char): octet { (Value(ch) % 256) as octet }

  lemma ValueOfLetter(k: int)
    requires 0 <= k < 64
    ensures Value(Letter(k)) == k && Letter(k) != '\n' && Letter(k) != '='
  {
  }

  lemma SameByte(i: octet, k: int)
    requires k == i as int
    ensures 0 <= k < 256 && k as octet == i
  {
  }

  lemma RevcharInverts(i: octet)
    requires i < 64
    ensures Revchar(Charset(i)) == i
    ensures Charset(i) != '\n' && Charset(i) != '='
  {
    ValueOfLetter(i as int);
    SameByte(i, i as int);
  }

  // --- packing --------------------------------------------------------------------------------------------

  function First(x: octet): octet { x >> 2 }
  function Second(x: octet, y: octet): octet { ((x & 0x03) << 4) | (y >> 4) }
  function Third(y: octet, z: octet): octet { ((y & 0x0f) << 2) | (z >> 6) }
  function Fourth(z: octet): octet { z & 0x3f }

  function Unpack1(a: octet, b: octet): octet { (a << 2) | ((b & 0x30) >> 4) }
  function Unpack2(b: octet, c: octet): octet { (b << 4) | (c >> 2) }
  function Unpack3(c: octet, d: octet): octet { (c << 6) | d }

  lemma PackRanges(x: octet, y: octet, z: octet)
    ensures First(x) < 64 && Second(x, y) < 64 && Third(y, z) < 64 && Fourth(z) < 64
  {
  }

  /** Four groups of six bits give back the three bytes; two or three give back one or two. */
  lemma UnpackInverts(x: octet, y: octet, z: octet)
    ensures Unpack1(First(x), Second(x, y)) == x
    ensures Unpack2(Second(x, y), Third(y, z)) == y
    ensures Unpack3(Third(y, z), Fourth(z)) == z
  {
  }

  // --- encoding -------------------------------------------------------------------------------------------

  /** Three bytes as four characters. */
  function Group(x: octet, y: octet, z: octet): (r: string)
    ensures |r| == 4
  {
    PackRanges(x, y, z);
    [Charset(First(x)), Charset(Second(x, y)), Charset(Third(y, z)), Charset(Fourth(z))]
  }

  /** What is left over, padded: nothing, or one or two bytes as four characters. */
  function Rest(s: seq<octet>): (r: string)
    requires |s| < 3
    ensures |r| == if s == [] then 0 else 4
  {
    if s == [] then ""
    else if |s| == 1 then
      PackRanges(s[0], 0, 0);
      [Charset(First(s[0])), Charset(Second(s[0], 0)), '=', '=']
    else
      PackRanges(s[0], s[1], 0);
      [Charset(First(s[0])), Charset(Second(s[0], s[1])), Charset(Third(s[1], 0)), '=']
  }

  predicate Column(col: nat) { col < LINE && col % 4 == 0 }

  function Gap(pending: bool): string { if pending then "\n" else "" }

  /** The encoding from the column `col` of a line on; with `nl`, a line break follows each full line. */
  function Text(s: seq<octet>, col: nat, nl: bool): string
    requires Column(col)
  {
    if |s| < 3 then Rest(s)
    else Group(s[0], s[1], s[2]) + (Gap(nl && col + 4 == LINE) + Text(s[3..], (col + 4) % LINE, nl))
  }

  function Encoded(s: seq<octet>, nl: bool): string { Text(s, 0, nl) }

  /** The length-only answer of base64_encode. */
  function EncodedLength(n: nat, nl: bool): nat {
    n / 3 * 4 + (if n % 3 != 0 then 4 else 0) + (if nl then n / 57 else 0)
  }

  lemma LengthMoves(n: nat, col: nat)
    requires n >= 3 && Column(col)
    ensures (n - 3) / 3 == n / 3 - 1 && (n - 3) % 3 == n % 3
    ensures col + 4 != LINE ==> (col + 4) % LINE / 4 + (n - 3) / 3 == col / 4 + n / 3
    ensures col + 4 == LINE ==> col / 4 + n / 3 == (n - 3) / 3 + 19
  {
  }

  lemma {:induction false} TextLength(s: seq<octet>, col: nat, nl: bool)
    requires Column(col)
    ensures |Text(s, col, nl)| ==
            |s| / 3 * 4 + (if |s| % 3 != 0 then 4 else 0) + (if nl then (col / 4 + |s| / 3) / 19 else 0)
    decreases |s|
  {
    if |s| >= 3 {
      LengthMoves(|s|, col);
      TextLength(s[3..], (col + 4) % LINE, nl);
      if col + 4 == LINE {
        OneMoreLine((|s| - 3) / 3);
      }
    }
  }

  lemma OneMoreLine(k: nat)
    ensures (k + 19) / 19 == k / 19 + 1
  {
  }

  /** The length-only call returns the length that the writing call produces. */
  lemma LengthIsExact(s: seq<octet>, nl: bool)
    ensures |Encoded(s, nl)| == EncodedLength(|s|, nl)
  {
    TextLength(s, 0, nl);
    assert |s| / 3 / 19 == |s| / 57;
  }

  // --- line breaks ------------------------------------------------------------------------------------------

  function WithoutBreaks(t: string): string {
    if t == "" then ""
    else if t[0] == '\n' then WithoutBreaks(t[1..])
    else [t[0]] + WithoutBreaks(t[1..])
  }

  lemma {:induction false} WithoutBreaksConcat(a: string, b: string)
    ensures WithoutBreaks(a + b) == WithoutBreaks(a) + WithoutBreaks(b)
    decreases |a|
  {
    if a == "" {
      assert a + b == b;
    } else {
      assert (a + b)[1..] == a[1..] + b;
      WithoutBreaksConcat(a[1..], b);
    }
  }

  predicate NoBreak(t: string) { forall i :: 0 <= i < |t| ==> t[i] != '\n' }

  lemma {:induction false} NothingToRemove(t: string)
    requires NoBreak(t)
    ensures WithoutBreaks(t) == t
    decreases |t|
  {
    if t != "" {
      NothingToRemove(t[1..]);
      assert [t[0]] + t[1..] == t;
    }
  }

  lemma GroupHasNoBreak(x: octet, y: octet, z: octet)
    ensures NoBreak(Group(x, y, z)) && Group(x, y, z)[3] != '='
  {
    PackRanges(x, y, z);
    RevcharInverts(First(x));
    RevcharInverts(Second(x, y));
    RevcharInverts(Third(y, z));
    RevcharInverts(Fourth(z));
  }

  lemma RestHasNoBreak(s: seq<octet>)
    requires |s| < 3
    ensures NoBreak(Rest(s))
  {
    if |s| == 1 {
      GroupHasNoBreak(s[0], 0, 0);
      assert Rest(s)[..2] == Group(s[0], 0, 0)[..2];
    } else if |s| == 2 {
      GroupHasNoBreak(s[0], s[1], 0);
      assert Rest(s)[..3] == Group(s[0], s[1], 0)[..3];
    }
  }

  lemma NoGap(t: string)
    ensures Gap(false) + t == t
  {
  }

  lemma BreakRemoved(g: string, full: bool, t: string)
    requires NoBreak(g)
    ensures WithoutBreaks(g + (Gap(full) + t)) == g + WithoutBreaks(t)
  {
    NothingToRemove(g);
    WithoutBreaksConcat(g, Gap(full) + t);
    WithoutBreaksConcat(Gap(full), t);
    assert Gap(true)[1..] == "";
    assert "" + WithoutBreaks(t) == WithoutBreaks(t);
  }

  /** Deleting the line breaks gives the encoding without line breaks. */
  lemma {:induction false} BreaksRemoved(s: seq<octet>, col: nat, col': nat)
    requires Column(col) && Column(col')
    ensures WithoutBreaks(Text(s, col, true)) == Text(s, col', false)
    decreases |s|
  {
    if |s| < 3 {
      RestHasNoBreak(s);
      NothingToRemove(Rest(s));
    } else {
      GroupHasNoBreak(s[0], s[1], s[2]);
      BreaksRemoved(s[3..], (col + 4) % LINE, (col' + 4) % LINE);
      BreakRemoved(Group(s[0], s[1], s[2]), col + 4 == LINE, Text(s[3..], (col + 4) % LINE, true));
      NoGap(Text(s[3..], (col' + 4) % LINE, false));
    }
  }

  lemma IndexInThree(a: string, b: string, c: string, i: nat)
    requires i < |a + (b + c)|
    ensures i < |a| ==> (a + (b + c))[i] == a[i]
    ensures |a| <= i < |a| + |b| ==> (a + (b + c))[i] == b[i - |a|]
    ensures i >= |a| + |b| ==> (a + (b + c))[i] == c[i - |a| - |b|]
  {
  }

  lemma BreakColumns(col: nat, i: nat)
    requires Column(col)
    ensures i < 4 ==> (col + i) % 77 != 76
    ensures i == 4 && col + 4 == LINE ==> (col + i) % 77 == 76
    ensures col + 4 == LINE && i >= 5 ==> (col + i) % 77 == ((col + 4) % LINE + (i - 5)) % 77
    ensures col + 4 < LINE && i >= 4 ==> (col + i) % 77 == ((col + 4) % LINE + (i - 4)) % 77
  {
    if col + 4 == LINE && i >= 5 {
      assert (col + i) % 77 == (i - 5) % 77;
    }
  }

  lemma BreakInFirst(s: seq<octet>, text: string, col: nat, i: nat, next: string)
    requires Column(col) && |s| >= 3 && i < |text|
    requires text == Group(s[0], s[1], s[2]) + (Gap(col + 4 == LINE) + next)
    ensures var first := if col + 4 == LINE then 5 else 4;
            if i < first then text[i] == '\n' <==> (col + i) % 77 == 76
            else i - first < |next| && text[i] == next[i - first]
                 && (col + i) % 77 == ((col + 4) % LINE + (i - first)) % 77
  {
    GroupHasNoBreak(s[0], s[1], s[2]);
    IndexInThree(Group(s[0], s[1], s[2]), Gap(col + 4 == LINE), next, i);
    BreakColumns(col, i);
  }

  lemma {:induction false} BreaksAt(s: seq<octet>, text: string, col: nat, i: nat)
    requires Column(col) && IsText(text, s, col, true) && i < |text|
    ensures text[i] == '\n' <==> (col + i) % 77 == 76
    decreases |s|
  {
    if |s| < 3 {
      LastText(s, text, col, true);
      RestHasNoBreak(s);
    } else {
      var next := NextText(s, text, col, true);
      BreakInFirst(s, text, col, i, next);
      var first := if col + 4 == LINE then 5 else 4;
      if i >= first {
        BreaksAt(s[3..], next, (col + 4) % LINE, i - first);
      }
    }
  }

  /** Line breaks stand after each 76 characters of full blocks and nowhere else. */
  lemma BreakPositions(s: seq<octet>, col: nat, i: nat)
    requires Column(col) && i < |Text(s, col, true)|
    ensures Text(s, col, true)[i] == '\n' <==> (col + i) % 77 == 76
  {
    BreaksAt(s, Text(s, col, true), col, i);
  }

  // --- decoding ---------------------------------------------------------------------------------------------

  /** Characters before the padding: at most two '=' are cut off. */
  function Stripped(text: string): (n: nat)
    requires Decodable(text)
    ensures n <= |text|
  {
    var n := if text[|text| - 1] == '=' then |text| - 1 else |text|;
    if text[n - 1] == '=' then n - 1 else n
  }

  /** The reads of the padding check are inside the text. */
  predicate Decodable(text: string) { |text| >= 1 && (|text| == 1 ==> text[0] != '=') }

  function Prepend(front: seq<octet>, o: Option<seq<octet>>): Option<seq<octet>> {
    match o
    case None => None
    case Some(d) => Some(front + d)
  }

  function Three(text: string, p: nat): (r: seq<octet>)
    requires p + 3 < |text|
    ensures |r| == 3
  {
    var a, b, c, d := Revchar(text[p]), Revchar(text[p + 1]), Revchar(text[p + 2]), Revchar(text[p + 3]);
    [Unpack1(a, b), Unpack2(b, c), Unpack3(c, d)]
  }

  /** The decoding loop with `todo` characters to go before it stops, and what follows it; None is a read too far. */
  function DecodeFrom(rest: string, todo: int, left: nat): Option<seq<octet>>
    decreases |rest|
  {
    if todo > 0 then
      if rest == "" then None
      else
        var q := if rest[0] == '\n' then 1 else 0;
        if q + 3 >= |rest| then None else Prepend(Three(rest, q), DecodeFrom(rest[q + 4..], todo - q - 4, left))
    else if left == 2 then
      if |rest| < 2 then None else Some([Unpack1(Revchar(rest[0]), Revchar(rest[1]))])
    else if left == 3 then
      if |rest| < 3 then None
      else Some([Unpack1(Revchar(rest[0]), Revchar(rest[1])), Unpack2(Revchar(rest[1]), Revchar(rest[2]))])
    else Some([])
  }

  function Decoded(text: string): Option<seq<octet>>
    requires Decodable(text)
  {
    var n := Stripped(text);
    DecodeFrom(text, n / 4 * 4, n % 4)
  }

  /** The length-only answer of base64_decode. */
  function DecodedLength(text: string): nat
    requires Decodable(text)
  {
    var n := Stripped(text);
    var m := if n >= 77 && text[LINE] == '\n' then n - n / (LINE + 1) else n;
    m / 4 * 3 + (if m % 4 == 2 then 1 else if m % 4 == 3 then 2 else 0)
  }

  // --- what decoding does to an encoded text ------------------------------------------------------------------

  /** The padding characters behind `n` bytes. */
  function Pads(n: nat): nat { if n % 3 == 0 then 0 else 3 - n % 3 }

  function Whole(n: nat): nat { n / 3 * 3 }

  lemma PrependTwice(a: seq<octet>, b: seq<octet>, o: Option<seq<octet>>)
    ensures Prepend(a, Prepend(b, o)) == Prepend(a + b, o)
  {
    if o.Some? {
      assert a + (b + o.value) == a + b + o.value;
    }
  }

  lemma PrependNothing(o: Option<seq<octet>>)
    ensures Prepend([], o) == o
  {
    if o.Some? {
      assert [] + o.value == o.value;
    }
  }

  lemma GroupReadsBack(text: string, p: nat, x: octet, y: octet, z: octet)
    requires p + 3 < |text|
    requires text[p..p + 4] == Group(x, y, z)
    ensures Three(text, p) == [x, y, z]
  {
    PackRanges(x, y, z);
    RevcharInverts(First(x));
    RevcharInverts(Second(x, y));
    RevcharInverts(Third(y, z));
    RevcharInverts(Fourth(z));
    UnpackInverts(x, y, z);
    assert text[p..p + 4][0] == Charset(First(x));
    assert text[p..p + 4][1] == Charset(Second(x, y));
    assert text[p..p + 4][2] == Charset(Third(y, z));
    assert text[p..p + 4][3] == Charset(Fourth(z));
  }

  lemma Middle(a: string, b: string, c: string)
    ensures (a + (b + c))[|a|..|a| + |b|] == b
    ensures (a + (b + c))[|a| + |b|..] == c
  {
    assert (a + (b + c))[|a|..] == b + c;
    assert (a + (b + c))[|a|..][|b|..] == c;
  }

  /** One pass of the decoding loop over a group, with the line break in front of it if there is one. */
  lemma GroupStep(pending: bool, x: octet, y: octet, z: octet, after: string, todo: int, left: nat)
    requires todo > 0
    ensures DecodeFrom(Gap(pending) + (Group(x, y, z) + after), todo, left) ==
            Prepend([x, y, z], DecodeFrom(after, todo - |Gap(pending)| - 4, left))
  {
    var rest := Gap(pending) + (Group(x, y, z) + after);
    var q := |Gap(pending)|;
    Middle(Gap(pending), Group(x, y, z), after);
    GroupReadsBack(rest, q, x, y, z);
    GroupHasNoBreak(x, y, z);
    assert rest[q] == Group(x, y, z)[0];
  }

  /** Whether a line break stands between the last full group and what follows it. */
  predicate BreakBeforeRest(n: nat, col: nat, nl: bool, pending: bool) {
    if n < 3 then pending else nl && (col / 4 + n / 3) % 19 == 0
  }

  lemma BreakMoves(n: nat, col: nat, nl: bool, pending: bool)
    requires Column(col) && n >= 3
    ensures BreakBeforeRest(n, col, nl, pending)
        == BreakBeforeRest(n - 3, (col + 4) % LINE, nl, nl && col + 4 == LINE)
  {
    var j, k := col / 4, n / 3;
    assert (n - 3) / 3 == k - 1;
    if col + 4 == LINE {
      assert (j + k) % 19 == (k - 1) % 19;
    } else {
      assert (col + 4) / 4 == j + 1;
    }
  }

  /** What stands in front of the decoder behind the last full group: the padded rest. */
  function Remainder(s: seq<octet>, col: nat, nl: bool, pending: bool): string {
    Gap(BreakBeforeRest(|s|, col, nl, pending)) + Rest(s[Whole(|s|)..])
  }

  /** The decoder, in front of the text of `s`, reads its full groups and then stands in front of `end`. */
  ghost predicate ReadsGroups(s: seq<octet>, text: string, end: string, todo: int, left: nat) {
    forall t: int :: t == todo ==>
      DecodeFrom(text, t, left) == Prepend(s[..Whole(|s|)], DecodeFrom(end, t - |text| + |end|, left))
  }

  lemma OneMoreGroup(s: seq<octet>, pending: bool, next: string, end: string, todo: int, left: nat)
    requires |s| >= 3 && todo > 0
    requires ReadsGroups(s[3..], next, end, todo - |Gap(pending)| - 4, left)
    ensures ReadsGroups(s, Gap(pending) + (Group(s[0], s[1], s[2]) + next), end, todo, left)
  {
    GroupStep(pending, s[0], s[1], s[2], next, todo, left);
    WholeSplits(s);
    var rest := DecodeFrom(end, todo - |Gap(pending)| - 4 - |next| + |end|, left);
    assert DecodeFrom(next, todo - |Gap(pending)| - 4, left) == Prepend(s[3..][..Whole(|s| - 3)], rest);
    PrependTwice([s[0], s[1], s[2]], s[3..][..Whole(|s| - 3)], rest);
  }

  lemma NoMoreGroup(s: seq<octet>, text: string, todo: int, left: nat)
    requires |s| < 3
    ensures ReadsGroups(s, text, text, todo, left)
  {
    NoGroup(s);
    PrependNothing(DecodeFrom(text, todo, left));
  }

  lemma RestMoves(s: seq<octet>)
    requires |s| >= 3
    ensures s[3..][Whole(|s[3..]|)..] == s[Whole(|s|)..]
  {
    assert Whole(|s| - 3) == Whole(|s|) - 3;
  }

  lemma RemainderMoves(s: seq<octet>, col: nat, nl: bool, pending: bool)
    requires Column(col) && |s| >= 3
    ensures Remainder(s, col, nl, pending) == Remainder(s[3..], (col + 4) % LINE, nl, nl && col + 4 == LINE)
  {
    BreakMoves(|s|, col, nl, pending);
    RestMoves(s);
  }

  /** The loop reads every full group of an encoded text, whatever line breaks stand between them. */
  lemma {:induction false} GroupsReadBack(s: seq<octet>, text: string, col: nat, nl: bool, pending: bool, todo: int,
                                          left: nat)
    requires Column(col) && IsText(text, s, col, nl)
    requires todo + 4 > |Gap(pending)| + |text| - Pads(|s|)
    ensures ReadsGroups(s, Gap(pending) + text, Remainder(s, col, nl, pending), todo, left)
    decreases |s|
  {
    if |s| < 3 {
      NoGroup(s);
      LastText(s, text, col, nl);
      NoMoreGroup(s, Gap(pending) + Rest(s), todo, left);
    } else {
      var next := NextText(s, text, col, nl);
      var full := nl && col + 4 == LINE;
      WholeSplits(s);
      GroupsReadBack(s[3..], next, (col + 4) % LINE, nl, full, todo - |Gap(pending)| - 4, left);
      RemainderMoves(s, col, nl, pending);
      OneMoreGroup(s, pending, Gap(full) + next, Remainder(s, col, nl, pending), todo, left);
    }
  }

  lemma NoGroup(s: seq<octet>)
    requires |s| < 3
    ensures s[Whole(|s|)..] == s && s[..Whole(|s|)] == []
  {
    assert Whole(|s|) == 0;
  }

  /** `text` encodes `s`; the quantifier keeps the recursion of Text folded. */
  ghost predicate IsText(text: string, s: seq<octet>, col: nat, nl: bool) {
    forall c: nat :: c == col && Column(c) ==> text == Text(s, c, nl)
  }

  lemma NextText(s: seq<octet>, text: string, col: nat, nl: bool) returns (next: string)
    requires Column(col) && |s| >= 3 && IsText(text, s, col, nl)
    ensures text == Group(s[0], s[1], s[2]) + (Gap(nl && col + 4 == LINE) + next)
    ensures IsText(next, s[3..], (col + 4) % LINE, nl)
    ensures |next| >= Pads(|s|)
  {
    assert text == Text(s, col, nl);
    next := Text(s[3..], (col + 4) % LINE, nl);
    TextLength(s[3..], (col + 4) % LINE, nl);
  }

  lemma LastText(s: seq<octet>, text: string, col: nat, nl: bool)
    requires Column(col) && |s| < 3 && IsText(text, s, col, nl)
    ensures text == Rest(s)
  {
    assert text == Text(s, col, nl);
  }

  lemma WholeSplits(s: seq<octet>)
    requires |s| >= 3
    ensures |s[3..]| == |s| - 3 && Whole(|s| - 3) == Whole(|s|) - 3 && Pads(|s| - 3) == Pads(|s|)
    ensures [s[0], s[1], s[2]] + s[3..][..Whole(|s| - 3)] == s[..Whole(|s|)]
    ensures s[3..][Whole(|s| - 3)..] == s[Whole(|s|)..]
  {
  }

  predicate EndsWith(t: string, e: string) { |e| <= |t| && t[|t| - |e|..] == e }

  lemma EndsWithOn(a: string, t: string, e: string)
    requires EndsWith(t, e)
    ensures EndsWith(a + t, e)
  {
    assert (a + t)[|a|..] == t;
    assert (a + t)[|a|..][|t| - |e|..] == (a + t)[|a + t| - |e|..];
  }

  /** An encoded text ends with its padded rest. */
  lemma {:induction false} TextEnd(s: seq<octet>, text: string, col: nat, nl: bool)
    requires Column(col) && IsText(text, s, col, nl)
    ensures EndsWith(text, Rest(s[Whole(|s|)..]))
    decreases |s|
  {
    if |s| < 3 {
      NoGroup(s);
      LastText(s, text, col, nl);
      assert text[0..] == text;
    } else {
      var next := NextText(s, text, col, nl);
      RestMoves(s);
      TextEnd(s[3..], next, (col + 4) % LINE, nl);
      EndsWithOn(Gap(nl && col + 4 == LINE), next, Rest(s[Whole(|s|)..]));
      EndsWithOn(Group(s[0], s[1], s[2]), Gap(nl && col + 4 == LINE) + next, Rest(s[Whole(|s|)..]));
    }
  }

  predicate EndsPlain(t: string) { t != "" && t[|t| - 1] != '=' }

  /** Without a rest it does not end with a padding character. */
  lemma {:induction false} TextEndsPlain(s: seq<octet>, text: string, col: nat, nl: bool)
    requires Column(col) && s != [] && |s| % 3 == 0 && IsText(text, s, col, nl)
    ensures EndsPlain(text)
    decreases |s|
  {
    GroupHasNoBreak(s[0], s[1], s[2]);
    var next := NextText(s, text, col, nl);
    if |s| > 3 {
      TextEndsPlain(s[3..], next, (col + 4) % LINE, nl);
    } else {
      LastText(s[3..], next, (col + 4) % LINE, nl);
    }
  }

  lemma RestPadding(s: seq<octet>)
    requires 1 <= |s| < 3
    ensures Rest(s)[3] == '=' && (Rest(s)[2] == '=' <==> |s| == 1) && Rest(s)[1] != '='
  {
    if |s| == 1 {
      PackRanges(s[0], 0, 0);
      RevcharInverts(Second(s[0], 0));
    } else {
      PackRanges(s[0], s[1], 0);
      RevcharInverts(Second(s[0], s[1]));
      RevcharInverts(Third(s[1], 0));
    }
  }

  lemma PaddingOf(s: seq<octet>, text: string, nl: bool)
    requires s != [] && IsText(text, s, 0, nl)
    ensures Decodable(text) && Stripped(text) == |text| - Pads(|s|)
  {
    if |s| % 3 == 0 {
      TextEndsPlain(s, text, 0, nl);
      NothingStripped(text);
    } else {
      PaddingOfRest(s, text, nl, s[Whole(|s|)..]);
    }
  }

  lemma PaddingOfRest(s: seq<octet>, text: string, nl: bool, r: seq<octet>)
    requires |s| % 3 != 0 && IsText(text, s, 0, nl) && r == s[Whole(|s|)..]
    ensures Decodable(text) && Stripped(text) == |text| - Pads(|s|)
  {
    TextEnd(s, text, 0, nl);
    BytesLeftOver(|s|);
    LeftOverStripped(|s|, text, r);
  }

  lemma LeftOverStripped(n: nat, text: string, r: seq<octet>)
    requires n % 3 != 0 && |r| == n % 3 && EndsWith(text, Rest(r))
    ensures Decodable(text) && Stripped(text) == |text| - Pads(n)
  {
    RestStripped(text, r);
  }

  lemma NothingStripped(text: string)
    requires EndsPlain(text)
    ensures Decodable(text) && Stripped(text) == |text|
  {
  }

  lemma BytesLeftOver(n: nat)
    ensures n - Whole(n) == n % 3
  {
  }

  lemma RestStripped(text: string, r: seq<octet>)
    requires 1 <= |r| < 3 && EndsWith(text, Rest(r))
    ensures Decodable(text) && Stripped(text) == |text| - (3 - |r|)
  {
    RestPadding(r);
    assert text[|text| - 4..][3] == text[|text| - 1];
    assert text[|text| - 4..][2] == text[|text| - 2];
  }

  /** The decoder strips exactly the padding that the encoder wrote. */
  lemma PaddingStripped(s: seq<octet>, nl: bool)
    requires s != []
    ensures Decodable(Encoded(s, nl))
    ensures Stripped(Encoded(s, nl)) == |Encoded(s, nl)| - Pads(|s|)
  {
    PaddingOf(s, Encoded(s, nl), nl);
  }

  // --- when the decoder reads outside the text ----------------------------------------------------------------

  /** Line breaks that the decoder skips in front of `rest`. */
  function Skipped(rest: string): nat { if rest != "" && rest[0] == '\n' then 1 else 0 }

  /** Where the loop stops: it goes on by four characters, and by one more where it finds a line break. */
  function StopsAt(rest: string, todo: int): nat
    decreases |rest|
  {
    if todo <= 0 then 0
    else
      var next := Skipped(rest) + 4;
      if next > |rest| then next else next + StopsAt(rest[next..], todo - next)
  }

  /** The characters that the left-over branches look at. */
  function Needed(left: nat): nat { if left == 2 || left == 3 then left else 0 }

  lemma {:induction false} OverreadExactly(rest: string, todo: int, left: nat)
    ensures DecodeFrom(rest, todo, left) == None <==> StopsAt(rest, todo) + Needed(left) > |rest|
    decreases |rest|
  {
    var next := Skipped(rest) + 4;
    if todo > 0 && next <= |rest| {
      OverreadExactly(rest[next..], todo - next, left);
    }
  }

  /** The steps of the decoder and what they leave over reach behind the end of a text. */
  predicate ReachesOutside(text: string)
    requires Decodable(text)
  {
    StopsAt(text, Stripped(text) / 4 * 4) + Needed(Stripped(text) % 4) > |text|
  }

  /** That is when it reads outside. */
  lemma DecodesOutside(text: string)
    requires Decodable(text)
    ensures Decoded(text) == None <==> ReachesOutside(text)
  {
    OverreadExactly(text, Stripped(text) / 4 * 4, Stripped(text) % 4);
  }

  /** For example in front of three letters. */
  lemma BreakInFrontOverreads()
    ensures Decodable("\nAAA") && Decoded("\nAAA") == None
  {
    var text := "\nAAA";
    assert Stripped(text) == 4;
    assert Skipped(text) == 1;
    DecodesOutside(text);
  }

  lemma {:induction false} StepsOfFour(rest: string, todo: nat)
    requires NoBreak(rest) && todo % 4 == 0 && todo <= |rest|
    ensures StopsAt(rest, todo) == todo
    decreases |rest|
  {
    if todo > 0 {
      StepsOfFour(rest[4..], todo - 4);
    }
  }

  /** Never in a text without line breaks. */
  lemma NoBreakNoOverread(text: string)
    requires Decodable(text) && NoBreak(text)
    ensures Decoded(text).Some?
  {
    var n := Stripped(text);
    StepsOfFour(text, n / 4 * 4);
    DecodesOutside(text);
  }

  // --- when the round trip holds ------------------------------------------------------------------------------

  /** Whether the decoder, in front of the remainder with `left` left over, reads the `r` last bytes correctly. */
  predicate EndHarmless(r: nat, pending: bool, left: nat) {
    if pending then r == 0 && left == 1
    else if r == 0 then left <= 1
    else left == r + 1
  }

  /** What the decoder makes of the text that is left behind the full groups. */
  function EndDecoded(end: string, pads: nat, left: nat): Option<seq<octet>> {
    DecodeFrom(end, |end| - pads - left, left)
  }

  /** The decoder reads the last bytes `r` from `end`; the quantifier keeps the decoder folded. */
  ghost predicate EndReads(end: string, r: seq<octet>, left: nat) {
    forall t: int :: t == |end| - Pads(|r|) - left ==> DecodeFrom(end, t, left) == Some(r)
  }

  lemma EndOfWhole(r: seq<octet>, pending: bool, left: nat)
    requires |r| == 0 && left < 4
    ensures EndReads(Gap(pending) + Rest(r), r, left) <==> EndHarmless(|r|, pending, left)
  {
    var end := Gap(pending) + Rest(r);
    assert |end| == |Gap(pending)|;
    assert DecodeFrom(end, |end| - left, left) == Some(r) <==> EndHarmless(|r|, pending, left);
  }

  lemma LongerThanTwo(front: seq<octet>, o: Option<seq<octet>>, r: seq<octet>)
    requires |front| == 3 && |r| < 3
    ensures Prepend(front, o) != Some(r)
  {
    if o.Some? {
      assert |front + o.value| >= 3;
    }
  }

  /** A loop pass that starts at the remainder reads bytes that the text does not hold. */
  lemma EndOverread(end: string, r: seq<octet>, left: nat)
    requires |r| < 3 && |end| > Pads(|r|) + left
    ensures !EndReads(end, r, left)
  {
    var todo := |end| - Pads(|r|) - left;
    assert DecodeFrom(end, todo, left) != Some(r) by {
      if end != "" {
        var q := if end[0] == '\n' then 1 else 0;
        if q + 3 < |end| {
          LongerThanTwo(Three(end, q), DecodeFrom(end[q + 4..], todo - q - 4, left), r);
        }
      }
    }
  }

  lemma RestReadsBack(r: seq<octet>)
    requires 1 <= |r| < 3
    ensures Unpack1(Revchar(Rest(r)[0]), Revchar(Rest(r)[1])) == r[0]
    ensures |r| == 2 ==> Unpack2(Revchar(Rest(r)[1]), Revchar(Rest(r)[2])) == r[1]
  {
    var y := if |r| == 2 then r[1] else 0;
    PackRanges(r[0], y, 0);
    RevcharInverts(First(r[0]));
    RevcharInverts(Second(r[0], y));
    RevcharInverts(Third(y, 0));
    UnpackInverts(r[0], y, 0);
  }

  lemma LeftOverReads(r: seq<octet>)
    requires 1 <= |r| < 3
    ensures EndReads(Rest(r), r, |r| + 1)
  {
    RestReadsBack(r);
    if |r| == 1 {
      assert r == [r[0]];
    } else {
      assert r == [r[0], r[1]];
    }
  }

  lemma ExactEnd(r: seq<octet>)
    requires 1 <= |r| < 3
    ensures EndReads(Gap(false) + Rest(r), r, |r| + 1)
  {
    NoGap(Rest(r));
    LeftOverReads(r);
  }

  lemma ThreeLeft(end: string, r: seq<octet>)
    requires |r| == 1 && |end| <= Pads(|r|) + 3
    ensures !EndReads(end, r, 3)
  {
    var todo := |end| - Pads(|r|) - 3;
    assert DecodeFrom(end, todo, 3).Some? ==> |DecodeFrom(end, todo, 3).value| == 2;
  }

  lemma EndOfFour(end: string, r: seq<octet>, pending: bool, left: nat)
    requires 1 <= |r| < 3 && left < 4 && |end| == 4 + (if pending then 1 else 0)
    requires !pending ==> EndReads(end, r, |r| + 1)
    ensures EndReads(end, r, left) <==> EndHarmless(|r|, pending, left)
  {
    if |end| > Pads(|r|) + left {
      EndOverread(end, r, left);
    } else if left != |r| + 1 {
      ThreeLeft(end, r);
    }
  }

  lemma EndOfPadded(r: seq<octet>, pending: bool, left: nat)
    requires 1 <= |r| < 3 && left < 4
    ensures EndReads(Gap(pending) + Rest(r), r, left) <==> EndHarmless(|r|, pending, left)
  {
    if !pending {
      ExactEnd(r);
    }
    EndOfFour(Gap(pending) + Rest(r), r, pending, left);
  }

  /** The condition of the round trip: the line breaks, counted as text, must not disturb the last group. */
  predicate BreaksHarmless(n: nat) {
    if n >= 57 && n % 57 < 3 then n % 57 == 0 && n / 57 % 4 == 1
    else n / 57 % 4 == 0 || (n % 3 == 0 && n / 57 % 4 == 1)
  }

  lemma LeftOver(n: nat, nl: bool)
    requires n > 0
    ensures (EncodedLength(n, nl) - Pads(n)) % 4
         == ((if n % 3 == 0 then 0 else n % 3 + 1) + (if nl then n / 57 else 0)) % 4
  {
    LeftOverOfFour(n / 3, (if n % 3 == 0 then 0 else n % 3 + 1) + (if nl then n / 57 else 0));
  }

  lemma LeftOverOfFour(k: nat, x: nat)
    ensures (4 * k + x) % 4 == x % 4
  {
  }

  lemma BreakOfWholeText(n: nat, nl: bool)
    requires n > 0
    ensures BreakBeforeRest(n, 0, nl, false) <==> nl && n >= 57 && n % 57 < 3
  {
    assert n == n / 57 * 57 + n % 57;
    assert n / 3 == n / 57 * 19 + n % 57 / 3;
  }

  lemma RemainderOfLine(n: nat)
    ensures n % 57 % 3 == n % 3
  {
    var q, m := n / 57, n % 57;
    LeftOverOfThree(19 * q + m / 3, m % 3);
    assert n == 3 * (19 * q + m / 3) + m % 3;
  }

  lemma LeftOverOfThree(k: nat, x: nat)
    requires x < 3
    ensures (3 * k + x) % 3 == x
  {
  }

  /** Over the whole bytes `r` of the last group, the line breaks `q` and the bytes `m` of the last line. */
  lemma LeftOverHarmless(r: nat, q: nat, m: nat, nl: bool, left: nat)
    requires r == m % 3 && m < 57
    requires left == ((if r == 0 then 0 else r + 1) + (if nl then q else 0)) % 4
    ensures EndHarmless(r, nl && q >= 1 && m < 3, left)
        <==> !nl || (if q >= 1 && m < 3 then m == 0 && q % 4 == 1 else q % 4 == 0 || (r == 0 && q % 4 == 1))
  {
  }

  lemma LeftOverDecides(n: nat, nl: bool, left: nat)
    requires n > 0 && left == (EncodedLength(n, nl) - Pads(n)) % 4
    ensures EndHarmless(n % 3, BreakBeforeRest(n, 0, nl, false), left) <==> !nl || BreaksHarmless(n)
  {
    LeftOver(n, nl);
    BreakOfWholeText(n, nl);
    RemainderOfLine(n);
    LeftOverHarmless(n % 3, n / 57, n % 57, nl, left);
  }

  lemma GroupsOfWholeText(s: seq<octet>, nl: bool, todo: int, left: nat)
    requires todo + 4 > EncodedLength(|s|, nl) - Pads(|s|)
    ensures ReadsGroups(s, Encoded(s, nl), Remainder(s, 0, nl, false), todo, left)
  {
    LengthIsExact(s, nl);
    NoGap(Encoded(s, nl));
    GroupsReadBack(s, Encoded(s, nl), 0, nl, false, todo, left);
  }

  lemma DecodedByGroups(s: seq<octet>, t: string, end: string, n: nat)
    requires Decodable(t) && Stripped(t) == n && |t| == n + Pads(|s|)
    requires ReadsGroups(s, t, end, n / 4 * 4, n % 4)
    ensures Decoded(t) == Prepend(s[..Whole(|s|)], EndDecoded(end, Pads(|s|), n % 4))
  {
    assert DecodeFrom(t, n / 4 * 4, n % 4) == Decoded(t);
  }

  lemma FrontAndEnd(s: seq<octet>, w: nat, o: Option<seq<octet>>)
    requires w <= |s|
    ensures Prepend(s[..w], o) == Some(s) <==> o == Some(s[w..])
  {
    assert s[..w] + s[w..] == s;
    if o.Some? {
      assert (s[..w] + o.value)[w..] == o.value;
    }
  }

  lemma EndOfEncoded(s: seq<octet>, nl: bool, n: nat)
    requires s != [] && n == EncodedLength(|s|, nl) - Pads(|s|)
    ensures EndDecoded(Remainder(s, 0, nl, false), Pads(|s|), n % 4) == Some(s[Whole(|s|)..])
        <==> !nl || BreaksHarmless(|s|)
  {
    LeftOverDecides(|s|, nl, n % 4);
    EndDecides(s[Whole(|s|)..], BreakBeforeRest(|s|, 0, nl, false), n % 4);
    assert Pads(|s|) == Pads(|s[Whole(|s|)..]|);
    EndReadsWhat(Remainder(s, 0, nl, false), s[Whole(|s|)..], n % 4);
  }

  /** The lengths for which the decoder, in front of the remainder, reads outside its text. */
  predicate BreaksOverread(n: nat) {
    var q := n / 57 % 4;
    if n >= 57 && n % 57 < 3 then
      if n % 57 == 0 then q != 1 else if n % 57 == 1 then q == 0 else q == 0 || q == 3
    else if n % 3 == 0 then q >= 2
    else n % 3 == 2 && q == 3
  }

  predicate EndFalls(r: nat, pending: bool, left: nat) {
    if pending then if r == 0 then left != 1 else if r == 1 then left == 2 else left >= 2
    else if r == 0 then left >= 2 else r == 2 && left == 2
  }

  lemma StopsInFour(end: string, todo: int)
    requires |end| == 4 + Skipped(end) && todo <= 4
    ensures StopsAt(end, todo) == if todo > 0 then |end| else 0
  {
    assert end[Skipped(end) + 4..] == "";
  }

  /** The end is read outside; the quantifier keeps the decoder folded. */
  ghost predicate EndOutside(end: string, pads: nat, left: nat) {
    forall t: int :: t == |end| - pads - left ==> DecodeFrom(end, t, left) == None
  }

  lemma EndOutsideWhat(end: string, pads: nat, left: nat)
    ensures EndOutside(end, pads, left) <==> EndDecoded(end, pads, left) == None
  {
  }

  lemma EndOutsideWhere(end: string, pads: nat, left: nat, todo: int)
    requires todo == |end| - pads - left
    ensures EndOutside(end, pads, left) <==> StopsAt(end, todo) + Needed(left) > |end|
  {
    EndOutsideWhat(end, pads, left);
    OverreadExactly(end, todo, left);
  }

  lemma NothingFalls(end: string, pending: bool, left: nat)
    requires left < 4 && |end| == Skipped(end) == if pending then 1 else 0
    ensures EndOutside(end, 0, left) <==> EndFalls(0, pending, left)
  {
    EndOutsideWhere(end, 0, left, |end| - left);
  }

  lemma FourFall(end: string, r: nat, pending: bool, left: nat)
    requires 1 <= r < 3 && left < 4 && |end| == 4 + Skipped(end) && Skipped(end) == if pending then 1 else 0
    ensures EndOutside(end, 3 - r, left) <==> EndFalls(r, pending, left)
  {
    EndOutsideWhere(end, 3 - r, left, |end| - (3 - r) - left);
    StopsInFour(end, |end| - (3 - r) - left);
  }

  lemma EndFallsExactly(r: seq<octet>, pending: bool, left: nat)
    requires |r| < 3 && left < 4
    ensures EndOutside(Gap(pending) + Rest(r), Pads(|r|), left) <==> EndFalls(|r|, pending, left)
  {
    GapSkipped(pending, r);
    if r == [] {
      NothingFalls(Gap(pending) + Rest(r), pending, left);
    } else {
      FourFall(Gap(pending) + Rest(r), |r|, pending, left);
    }
  }

  lemma GapSkipped(pending: bool, r: seq<octet>)
    requires |r| < 3
    ensures Skipped(Gap(pending) + Rest(r)) == |Gap(pending)|
    ensures |Gap(pending) + Rest(r)| == |Gap(pending)| + if r == [] then 0 else 4
  {
    RestHasNoBreak(r);
    if !pending {
      NoGap(Rest(r));
    }
  }

  lemma LeftOverFalls(r: nat, q: nat, m: nat, left: nat)
    requires r == m % 3 && m < 57 && left == ((if r == 0 then 0 else r + 1) + q) % 4
    ensures EndFalls(r, q >= 1 && m < 3, left) <==>
            if q >= 1 && m < 3 then
              if m == 0 then q % 4 != 1 else if m == 1 then q % 4 == 0 else q % 4 == 0 || q % 4 == 3
            else if r == 0 then q % 4 >= 2
            else r == 2 && q % 4 == 3
  {
  }

  lemma LeftOverFallsPlain(r: nat, left: nat)
    requires r < 3 && left == if r == 0 then 0 else r + 1
    ensures !EndFalls(r, false, left)
  {
  }

  lemma FallsDecide(n: nat, nl: bool, left: nat)
    requires n > 0 && left == (EncodedLength(n, nl) - Pads(n)) % 4
    ensures EndFalls(n % 3, BreakBeforeRest(n, 0, nl, false), left) <==> nl && BreaksOverread(n)
  {
    LeftOver(n, nl);
    BreakOfWholeText(n, nl);
    RemainderOfLine(n);
    if nl {
      LeftOverFalls(n % 3, n / 57, n % 57, left);
    } else {
      LeftOverFallsPlain(n % 3, left);
    }
  }

  lemma TailLength(s: seq<octet>)
    ensures |s[Whole(|s|)..]| == |s| % 3 && Pads(|s[Whole(|s|)..]|) == Pads(|s|)
  {
  }

  lemma RemainderFalls(s: seq<octet>, nl: bool, left: nat)
    requires left < 4
    ensures EndOutside(Remainder(s, 0, nl, false), Pads(|s|), left)
        <==> EndFalls(|s| % 3, BreakBeforeRest(|s|, 0, nl, false), left)
  {
    TailLength(s);
    EndFallsExactly(s[Whole(|s|)..], BreakBeforeRest(|s|, 0, nl, false), left);
  }

  lemma EndOverreads(s: seq<octet>, nl: bool, n: nat)
    requires s != [] && n == EncodedLength(|s|, nl) - Pads(|s|)
    ensures EndOutside(Remainder(s, 0, nl, false), Pads(|s|), n % 4) <==> nl && BreaksOverread(|s|)
  {
    FallsDecide(|s|, nl, n % 4);
    RemainderFalls(s, nl, n % 4);
  }

  lemma EncodedReadsBack(s: seq<octet>, nl: bool, t: string, n: nat) returns (o: Option<seq<octet>>)
    requires s != [] && n == EncodedLength(|s|, nl) - Pads(|s|)
    requires Decodable(t) && Stripped(t) == n && |t| == n + Pads(|s|)
    requires ReadsGroups(s, t, Remainder(s, 0, nl, false), n / 4 * 4, n % 4)
    ensures Decoded(t) == Prepend(s[..Whole(|s|)], o)
    ensures o == Some(s[Whole(|s|)..]) <==> !nl || BreaksHarmless(|s|)
    ensures o == None <==> nl && BreaksOverread(|s|)
  {
    o := EndDecoded(Remainder(s, 0, nl, false), Pads(|s|), n % 4);
    DecodedByGroups(s, t, Remainder(s, 0, nl, false), n);
    EndOfEncoded(s, nl, n);
    EndOverreads(s, nl, n);
    EndOutsideWhat(Remainder(s, 0, nl, false), Pads(|s|), n % 4);
  }

  lemma EndReadsWhat(end: string, r: seq<octet>, left: nat)
    ensures EndReads(end, r, left) <==> EndDecoded(end, Pads(|r|), left) == Some(r)
  {
  }

  /** Decoding what was encoded gives the bytes back, exactly when no line break is written or all are harmless. */
  lemma RoundTrip(s: seq<octet>, nl: bool)
    requires s != []
    ensures Decodable(Encoded(s, nl))
    ensures Decoded(Encoded(s, nl)) == Some(s) <==> !nl || BreaksHarmless(|s|)
  {
    var n := EncodedLength(|s|, nl) - Pads(|s|);
    PaddingStripped(s, nl);
    LengthIsExact(s, nl);
    GroupsOfWholeText(s, nl, n / 4 * 4, n % 4);
    var o := EncodedReadsBack(s, nl, Encoded(s, nl), n);
    FrontAndEnd(s, Whole(|s|), o);
  }

  /**
   * The decoder reads outside the encoder's own text exactly for these lengths, with line breaks; where it neither does
   * that nor gives the bytes back, it gives other bytes.
   */
  lemma EncodedOverreads(s: seq<octet>, nl: bool)
    requires s != []
    ensures Decodable(Encoded(s, nl))
    ensures Decoded(Encoded(s, nl)) == None <==> nl && BreaksOverread(|s|)
  {
    var n := EncodedLength(|s|, nl) - Pads(|s|);
    PaddingStripped(s, nl);
    LengthIsExact(s, nl);
    GroupsOfWholeText(s, nl, n / 4 * 4, n % 4);
    var o := EncodedReadsBack(s, nl, Encoded(s, nl), n);
  }

  /** For example for 171 bytes, three full lines. */
  lemma ThreeLinesOverread(s: seq<octet>)
    requires |s| == 171
    ensures Decodable(Encoded(s, true)) && Decoded(Encoded(s, true)) == None
  {
    assert 171 / 57 == 3;
    EncodedOverreads(s, true);
  }

  lemma EndDecides(r: seq<octet>, pending: bool, left: nat)
    requires |r| < 3 && left < 4
    ensures EndReads(Gap(pending) + Rest(r), r, left) <==> EndHarmless(|r|, pending, left)
  {
    if r == [] {
      EndOfWhole(r, pending, left);
    } else {
      EndOfPadded(r, pending, left);
    }
  }

  lemma LeastHarmful()
    ensures !BreaksHarmless(58) && forall n: nat :: n < 58 ==> BreaksHarmless(n)
  {
  }

  /** A line break in front of a padded rest is decoded as if it were a letter. */
  lemma FiftyEightBytesFail(s: seq<octet>)
    requires |s| == 58
    ensures Decodable(Encoded(s, true)) && Decoded(Encoded(s, true)) != Some(s)
  {
    RoundTrip(s, true);
    LeastHarmful();
  }

  /** No shorter text fails. */
  lemma ShorterTextsReadBack(s: seq<octet>)
    requires 0 < |s| < 58
    ensures Decodable(Encoded(s, true)) && Decoded(Encoded(s, true)) == Some(s)
  {
    RoundTrip(s, true);
    LeastHarmful();
  }

  // --- the length-only call of the decoder --------------------------------------------------------------------

  lemma {:induction false} NoBreakWithoutFlag(s: seq<octet>, col: nat)
    requires Column(col)
    ensures NoBreak(Text(s, col, false))
    decreases |s|
  {
    if |s| < 3 {
      RestHasNoBreak(s);
    } else {
      GroupHasNoBreak(s[0], s[1], s[2]);
      NoBreakWithoutFlag(s[3..], (col + 4) % LINE);
    }
  }

  /** With line breaks each 77 characters hold one; their count and the number of bytes come back from the length. */
  lemma BreaksFromLength(n: nat)
    ensures EncodedLength(n, true) - Pads(n) >= 77 <==> n >= 57
    ensures (EncodedLength(n, true) - Pads(n)) / 77 == n / 57
    ensures EncodedLength(n, true) - n / 57 == EncodedLength(n, false)
  {
    assert n == n / 57 * 57 + n % 57;
    assert n / 3 == n / 57 * 19 + n % 57 / 3;
  }

  lemma BytesFromLength(n: nat)
    ensures EncodedLength(n, false) >= Pads(n)
    ensures var m := EncodedLength(n, false) - Pads(n);
            m / 4 * 3 + (if m % 4 == 2 then 1 else if m % 4 == 3 then 2 else 0) == n
  {
  }

  lemma LineBreakSeen(s: seq<octet>, nl: bool)
    requires |s| >= 57
    ensures |Encoded(s, nl)| >= 77 ==> (Encoded(s, nl)[LINE] == '\n' <==> nl)
  {
    if nl {
      if |Encoded(s, nl)| >= 77 {
        BreakPositions(s, 0, LINE);
      }
    } else {
      NoBreakWithoutFlag(s, 0);
    }
  }

  lemma LengthOfDecoded(t: string, n: nat, nl: bool)
    requires n > 0 && Decodable(t) && Stripped(t) == EncodedLength(n, nl) - Pads(n)
    requires n >= 57 && |t| >= 77 ==> (t[LINE] == '\n' <==> nl)
    ensures DecodedLength(t) == n
  {
    BreaksFromLength(n);
    BytesFromLength(n);
  }

  /** The length-only call of the decoder returns the length of the bytes, with line breaks and without. */
  lemma DecodedLengthIsExact(s: seq<octet>, nl: bool)
    requires s != []
    ensures Decodable(Encoded(s, nl)) && DecodedLength(Encoded(s, nl)) == |s|
  {
    PaddingStripped(s, nl);
    LengthIsExact(s, nl);
    if |s| >= 57 {
      LineBreakSeen(s, nl);
    }
    LengthOfDecoded(Encoded(s, nl), |s|, nl);
  }

  // --- the two C functions ------------------------------------------------------------------------------------

  /** Nothing at or behind `from` was written. */
  ghost predicate Kept<T>(was: seq<T>, now: seq<T>, from: nat) {
    |was| == |now| && forall k :: from <= k < |was| ==> now[k] == was[k]
  }

  lemma StillKept<T>(was: seq<T>, between: seq<T>, now: seq<T>, from: nat, to: nat)
    requires from <= to && Kept(was, between, from) && Kept(between, now, to)
    ensures Kept(was, now, to)
  {
  }

  method PutGroup(out: array<char>, at: nat, x: octet, y: octet, z: octet)
    requires at + 4 <= out.Length
    modifies out
    ensures out[..at] == old(out[..at])
    ensures out[..at + 4] == old(out[..at]) + Group(x, y, z)
    ensures Kept(old(out[..]), out[..], at + 4)
  {
    PackRanges(x, y, z);
    out[at] := Charset(First(x));
    out[at + 1] := Charset(Second(x, y));
    out[at + 2] := Charset(Third(y, z));
    out[at + 3] := Charset(Fourth(z));
  }

  method PutRest(out: array<char>, at: nat, s: seq<octet>)
    requires 1 <= |s| < 3 && at + 4 <= out.Length
    modifies out
    ensures out[..at + 4] == old(out[..at]) + Rest(s)
    ensures Kept(old(out[..]), out[..], at + 4)
  {
    if |s| == 1 {
      PackRanges(s[0], 0, 0);
      out[at] := Charset(First(s[0]));
      out[at + 1] := Charset(Second(s[0], 0));
      out[at + 2] := '=';
      out[at + 3] := '=';
    } else {
      PackRanges(s[0], s[1], 0);
      out[at] := Charset(First(s[0]));
      out[at + 1] := Charset(Second(s[0], s[1]));
      out[at + 2] := Charset(Third(s[1], 0));
      out[at + 3] := '=';
    }
  }

  method PutBreak(out: array<char>, at: nat)
    requires at < out.Length
    modifies out
    ensures out[..at + 1] == old(out[..at]) + "\n"
    ensures Kept(old(out[..]), out[..], at + 1)
  {
    out[at] := '\n';
  }

  /** `front` is written, `written` of it line breaks aside, and `s` is still to be encoded. */
  ghost predicate Writing(whole: string, front: string, s: seq<octet>, written: nat, nl: bool) {
    forall w: nat :: w == written && w % 4 == 0 ==> Column(w % LINE) && front + Text(s, w % LINE, nl) == whole
  }

  lemma WritingMoves(whole: string, front: string, input: seq<octet>, idx: nat, written: nat, nl: bool)
    returns (full: bool)
    requires idx + 3 <= |input| && written % 4 == 0 && Writing(whole, front, input[idx..], written, nl)
    ensures full <==> nl && (written + 4) % LINE == 0
    ensures |front| + 4 + |Gap(full)| <= |whole|
    ensures Writing(whole, front + Group(input[idx], input[idx + 1], input[idx + 2]) + Gap(full), input[idx + 3..],
                    written + 4, nl)
  {
    var s, col := input[idx..], written % LINE;
    ColumnMoves(written);
    full := nl && col + 4 == LINE;
    var next := NextText(s, Text(s, col, nl), col, nl);
    Regroup(front, Group(s[0], s[1], s[2]), Gap(full), next);
    assert s[3..] == input[idx + 3..];
  }

  lemma Regroup(a: string, b: string, c: string, d: string)
    ensures a + (b + (c + d)) == a + b + c + d
  {
  }

  lemma ColumnMoves(written: nat)
    requires written % 4 == 0
    ensures Column(written % LINE)
    ensures (written + 4) % LINE == (written % LINE + 4) % LINE
    ensures (written + 4) % LINE == 0 <==> written % LINE + 4 == LINE
  {
    var lines, col := written / LINE, written % LINE;
    assert written == lines * LINE + col;
    assert col % 4 == 0;
    if col + 4 == LINE {
      assert written + 4 == (lines + 1) * LINE;
    } else {
      assert (written + 4) / LINE == lines;
    }
  }

  /** One pass of the encoding loop: a group, and a line break behind a full line. */
  method EncodeGroup(out: array<char>, at: nat, newlines: nat, nl: bool, input: seq<octet>, idx: nat,
                     ghost whole: string)
    returns (next: nat, newlines': nat)
    requires idx + 3 <= |input|
    requires |whole| <= out.Length && newlines <= at <= out.Length && (at - newlines) % 4 == 0
    requires Writing(whole, out[..at], input[idx..], at - newlines, nl)
    modifies out
    ensures newlines' <= next <= out.Length && next - newlines' == at - newlines + 4 && at <= next
    ensures Writing(whole, out[..next], input[idx + 3..], next - newlines', nl)
    ensures Kept(old(out[..]), out[..], next)
  {
    ghost var front := out[..at];
    ghost var full := WritingMoves(whole, front, input, idx, at - newlines, nl);
    ghost var g := Group(input[idx], input[idx + 1], input[idx + 2]);
    PutGroup(out, at, input[idx], input[idx + 1], input[idx + 2]);
    next, newlines' := at + 4, newlines;
    if (at - newlines + 4) % LINE == 0 && nl {
      PutBreak(out, next);
      next, newlines' := next + 1, newlines + 1;
    } else {
      assert front + g + "" == front + g;
    }
    assert out[..next] == front + g + Gap(full);
  }

  /** What is left behind the loop: nothing, or one or two bytes with their padding. */
  method EncodeRest(out: array<char>, at: nat, s: seq<octet>, ghost written: nat, ghost nl: bool, ghost whole: string)
    returns (next: nat)
    requires |s| < 3 && |whole| <= out.Length && at <= out.Length && written % 4 == 0
    requires Writing(whole, out[..at], s, written, nl)
    modifies out
    ensures at <= next <= out.Length && out[..next] == whole && Kept(old(out[..]), out[..], next)
  {
    next := at;
    assert Text(s, written % LINE, nl) == Rest(s);
    if |s| != 0 {
      PutRest(out, at, s);
      next := at + 4;
    }
  }

  lemma ThreeMore(n: nat, idx: nat)
    requires idx % 3 == 0 && idx < n / 3 * 3
    ensures idx + 3 <= n / 3 * 3 <= n
  {
  }

  /** The encoding loop. */
  method EncodeGroups(input: seq<octet>, out: array<char>, nl: bool, ghost whole: string)
    returns (idx2: nat, newlines: nat)
    requires |whole| <= out.Length && Writing(whole, "", input[0..], 0, nl)
    modifies out
    ensures newlines <= idx2 <= out.Length && (idx2 - newlines) % 4 == 0
    ensures Writing(whole, out[..idx2], input[|input| / 3 * 3..], idx2 - newlines, nl)
    ensures Kept(old(out[..]), out[..], idx2)
  {
    var ceiling := |input| / 3 * 3;
    var idx := 0;
    idx2, newlines := 0, 0;
    assert out[..0] == "";
    while idx < ceiling
      invariant 0 <= idx <= ceiling && idx % 3 == 0
      invariant newlines <= idx2 <= out.Length && (idx2 - newlines) % 4 == 0
      invariant Writing(whole, out[..idx2], input[idx..], idx2 - newlines, nl)
      invariant Kept(old(out[..]), out[..], idx2)
    {
      ghost var at, between := idx2, out[..];
      ThreeMore(|input|, idx);
      idx2, newlines := EncodeGroup(out, idx2, newlines, nl, input, idx, whole);
      StillKept(old(out[..]), between, out[..], at, idx2);
      idx := idx + 3;
    }
  }

  /** The writing half of base64_encode. */
  method EncodeInto(input: seq<octet>, out: array<char>, nl: bool) returns (idx2: nat)
    requires EncodedLength(|input|, nl) <= out.Length
    modifies out
    ensures idx2 <= out.Length && out[..idx2] == Encoded(input, nl) && Kept(old(out[..]), out[..], idx2)
  {
    ghost var whole := Encoded(input, nl);
    LengthIsExact(input, nl);
    StartWriting(input, nl);
    var at, newlines := EncodeGroups(input, out, nl, whole);
    ghost var between := out[..];
    idx2 := EncodeRest(out, at, input[|input| / 3 * 3..], at - newlines, nl, whole);
    StillKept(old(out[..]), between, out[..], at, idx2);
  }

  lemma StartWriting(input: seq<octet>, nl: bool)
    ensures Writing(Encoded(input, nl), "", input[0..], 0, nl)
  {
    assert input[0..] == input;
    NoGap(Encoded(input, nl));
  }

  /** base64_encode: the length alone without an output array, else the encoding and its length. */
  method Encode(input: seq<octet>, out: array?<char>, nl: bool) returns (idx2: nat)
    requires out != null ==> EncodedLength(|input|, nl) <= out.Length
    modifies out
    ensures idx2 == EncodedLength(|input|, nl)
    ensures out != null ==> out[..idx2] == Encoded(input, nl) && Kept(old(out[..]), out[..], idx2)
  {
    if out == null {
      idx2 := |input| / 3 * 4;
      if |input| % 3 != 0 {
        idx2 := idx2 + 4;
      }
      if nl {
        idx2 := idx2 + |input| / 57;
      }
    } else {
      idx2 := EncodeInto(input, out, nl);
      LengthIsExact(input, nl);
    }
  }

  /** `front` is decoded and the decoder stands in front of `rest`. */
  ghost predicate Reading(whole: Option<seq<octet>>, front: seq<octet>, rest: string, todo: int, left: nat) {
    forall t: int :: t == todo ==> whole == Prepend(front, DecodeFrom(rest, t, left))
  }

  lemma StartReading(text: string, todo: int, left: nat)
    ensures Reading(DecodeFrom(text, todo, left), [], text[0..], todo, left)
  {
    assert text[0..] == text;
    PrependNothing(DecodeFrom(text, todo, left));
  }

  lemma ReadingMoves(whole: Option<seq<octet>>, front: seq<octet>, rest: string, todo: int, left: nat)
    requires todo > 0 && Reading(whole, front, rest, todo, left)
    ensures Skipped(rest) + 3 >= |rest| ==> whole == None
    ensures Skipped(rest) + 3 < |rest| ==>
              Reading(whole, front + Three(rest, Skipped(rest)), rest[Skipped(rest) + 4..],
                      todo - Skipped(rest) - 4, left)
              && (whole.Some? ==> |front| + 3 <= |whole.value|)
  {
    assert whole == Prepend(front, DecodeFrom(rest, todo, left));
    var q := Skipped(rest);
    if q + 3 < |rest| {
      PrependTwice(front, Three(rest, q), DecodeFrom(rest[q + 4..], todo - q - 4, left));
    }
  }

  /** Room for the decoded bytes, or for what is written before a read too far. */
  predicate HasRoom(whole: Option<seq<octet>>, text: string, room: nat) {
    match whole
    case Some(d) => |d| <= room
    case None => |text| <= room
  }

  /** One pass of the decoding loop, unless it reads too far. */
  method DecodeGroup(text: string, idx2: nat, out: array<octet>, idx: nat, ghost whole: Option<seq<octet>>,
                     ghost stop: nat, ghost left: nat) returns (ok: bool, next: nat)
    requires idx2 < stop && idx <= idx2 <= |text| && idx <= out.Length && HasRoom(whole, text, out.Length)
    requires Reading(whole, out[..idx], text[idx2..], stop - idx2, left)
    modifies out
    ensures !ok ==> whole == None
    ensures ok ==> idx2 + 4 <= next <= |text| && idx + 3 <= out.Length
                   && Reading(whole, out[..idx + 3], text[next..], stop - next, left)
                   && Kept(old(out[..]), out[..], idx + 3)
  {
    ReadingMoves(whole, out[..idx], text[idx2..], stop - idx2, left);
    var q := idx2;
    if q >= |text| {
      return false, q;
    }
    if text[q] == '\n' {
      q := q + 1;
    }
    if q + 3 >= |text| {
      return false, q;
    }
    ok, next := true, q + 4;
    SameGroup(text, idx2, q);
    PutThree(text, q, out, idx);
  }

  lemma SameGroup(text: string, idx2: nat, q: nat)
    requires idx2 <= q && q + 3 < |text|
    ensures Three(text[idx2..], q - idx2) == Three(text, q) && text[idx2..][q - idx2 + 4..] == text[q + 4..]
  {
  }

  method PutThree(text: string, q: nat, out: array<octet>, idx: nat)
    requires q + 3 < |text| && idx + 3 <= out.Length
    modifies out
    ensures out[..idx + 3] == old(out[..idx]) + Three(text, q) && Kept(old(out[..]), out[..], idx + 3)
  {
    out[idx] := Unpack1(Revchar(text[q]), Revchar(text[q + 1]));
    out[idx + 1] := Unpack2(Revchar(text[q + 1]), Revchar(text[q + 2]));
    out[idx + 2] := Unpack3(Revchar(text[q + 2]), Revchar(text[q + 3]));
  }

  lemma ReadingEnds(whole: Option<seq<octet>>, front: seq<octet>, rest: string, todo: int, left: nat)
    requires todo <= 0 && Reading(whole, front, rest, todo, left)
    ensures (left == 2 || left == 3) && |rest| < left ==> whole == None
    ensures left == 2 <= |rest| ==> whole == Some(front + [Unpack1(Revchar(rest[0]), Revchar(rest[1]))])
    ensures left == 3 <= |rest| ==>
              whole == Some(front + [Unpack1(Revchar(rest[0]), Revchar(rest[1])),
                                     Unpack2(Revchar(rest[1]), Revchar(rest[2]))])
    ensures left != 2 && left != 3 ==> whole == Some(front)
  {
    assert whole == Prepend(front, DecodeFrom(rest, todo, left));
    assert front + [] == front;
  }

  /** What the left-over characters give, unless there are too few. */
  method DecodeRest(text: string, idx2: nat, out: array<octet>, idx: nat, ghost whole: Option<seq<octet>>,
                    ghost todo: int, left: nat) returns (ok: bool, r: nat)
    requires todo <= 0 && idx2 <= |text| && idx <= out.Length && HasRoom(whole, text, out.Length)
    requires Reading(whole, out[..idx], text[idx2..], todo, left)
    modifies out
    ensures !ok ==> whole == None
    ensures ok ==> idx <= r <= out.Length && whole == Some(out[..r]) && Kept(old(out[..]), out[..], r)
  {
    ghost var front := out[..idx];
    ReadingEnds(whole, front, text[idx2..], todo, left);
    ok, r := true, idx;
    if left == 2 {
      if idx2 + 1 >= |text| {
        return false, r;
      }
      out[idx] := Unpack1(Revchar(text[idx2]), Revchar(text[idx2 + 1]));
      r := r + 1;
    } else if left == 3 {
      if idx2 + 2 >= |text| {
        return false, r;
      }
      out[idx] := Unpack1(Revchar(text[idx2]), Revchar(text[idx2 + 1]));
      out[idx + 1] := Unpack2(Revchar(text[idx2 + 1]), Revchar(text[idx2 + 2]));
      r := r + 2;
    }
    assert out[..idx] == front;
    assert out[..r] == whole.value;
  }

  /** The decoding half of base64_decode: `n` characters are left when the padding is stripped. */
  method DecodeInto(text: string, n: nat, out: array<octet>, ghost whole: Option<seq<octet>>)
    returns (ok: bool, idx: nat)
    requires Reading(whole, [], text[0..], n / 4 * 4, n % 4) && HasRoom(whole, text, out.Length)
    modifies out
    ensures !ok ==> whole == None
    ensures ok ==> idx <= out.Length && whole == Some(out[..idx]) && Kept(old(out[..]), out[..], idx)
  {
    var ceiling, left := n / 4 * 4, n % 4;
    var idx2 := 0;
    ok, idx := true, 0;
    assert out[..0] == [];
    while idx2 < ceiling
      invariant idx <= idx2 <= |text| && idx <= out.Length
      invariant Reading(whole, out[..idx], text[idx2..], ceiling - idx2, left)
      invariant Kept(old(out[..]), out[..], idx)
    {
      ghost var between := out[..];
      ok, idx2 := DecodeGroup(text, idx2, out, idx, whole, ceiling, left);
      if !ok {
        return;
      }
      StillKept(old(out[..]), between, out[..], idx, idx + 3);
      idx := idx + 3;
    }
    ghost var at, between := idx, out[..];
    ok, idx := DecodeRest(text, idx2, out, idx, whole, ceiling - idx2, left);
    if ok {
      StillKept(old(out[..]), between, out[..], at, idx);
    }
  }

  method LengthOnly(text: string, n: nat) returns (idx: nat)
    requires Decodable(text) && n == Stripped(text)
    ensures idx == DecodedLength(text)
  {
    var m := n;
    if n >= 77 && text[LINE] == '\n' {
      m := n - n / (LINE + 1);
    }
    idx := m / 4 * 3;
    if m % 4 == 2 {
      idx := idx + 1;
    } else if m % 4 == 3 {
      idx := idx + 2;
    }
  }

  /**
   * base64_decode: the length alone without an output array, else the bytes and their number; None when it reads
   * outside the text.
   */
  method Decode(text: string, out: array?<octet>) returns (r: Option<nat>)
    requires out != null && Decodable(text) ==> HasRoom(Decoded(text), text, out.Length)
    modifies out
    ensures r == None <==> !Decodable(text) || (out != null && ReachesOutside(text))
    ensures r.Some? && out == null ==> r.value == DecodedLength(text)
    ensures r.Some? && out != null ==>
              r.value <= out.Length && Some(out[..r.value]) == Decoded(text) && Kept(old(out[..]), out[..], r.value)
  {
    var n := |text|;
    if n == 0 {
      return None;
    }
    if text[n - 1] == '=' {
      n := n - 1;
    }
    if n == 0 {
      return None;
    }
    if text[n - 1] == '=' {
      n := n - 1;
    }
    if out == null {
      var idx := LengthOnly(text, n);
      r := Some(idx);
    } else {
      DecodesOutside(text);
      StartReading(text, n / 4 * 4, n % 4);
      var ok, idx := DecodeInto(text, n, out, Decoded(text));
      r := if ok then Some(idx) else None;
    }
  }
}
