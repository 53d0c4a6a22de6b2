/** The tokens of the analytical query language. */
module QueryLexer {
  import opened Keys
  import opened Tables
  import opened Aggregates

  datatype Tok = Word(text: Key) | NumTok(num: nat) | StrTok(text: Key) | OpTok(op: CmpOp) | CommaTok

  const QUOTE: Byte := 34

  predicate IsSpace(c: Byte) { c == 32 || 9 <= c <= 13 }

  predicate IsDigit(c: Byte) { 48 <= c <= 57 }

  predicate IsWordByte(c: Byte) { IsDigit(c) || 65 <= c <= 90 || 97 <= c <= 122 || c == 95 }

  /** How many bytes of a word the text begins with. */
  function WordLen(s: Key): (n: nat)
    ensures n <= |s| && (forall i | 0 <= i < n :: IsWordByte(s[i])) && (n < |s| ==> !IsWordByte(s[n]))
  {
    if s == [] || !IsWordByte(s[0]) then 0 else 1 + WordLen(s[1..])
  }

  /** How many bytes come before the next quote. */
  function QuoteLen(s: Key): (n: nat)
    ensures n <= |s| && (forall i | 0 <= i < n :: s[i] != QUOTE) && (n < |s| ==> s[n] == QUOTE)
  {
    if s == [] || s[0] == QUOTE then 0 else 1 + QuoteLen(s[1..])
  }

  function NumberOf(w: Key): nat
    requires forall i | 0 <= i < |w| :: IsDigit(w[i])
  {
    if w == [] then 0
    else
      assert IsDigit(w[|w| - 1]);
      NumberOf(w[..|w| - 1]) * 10 + ((w[|w| - 1] as int) - 48)
  }

  predicate AllDigits(w: Key) { w != [] && forall i | 0 <= i < |w| :: IsDigit(w[i]) }

  /** A word that parses as a `u64` is a number. */
  function WordTok(w: Key): Tok {
    if AllDigits(w) && NumberOf(w) < TWO64 then NumTok(NumberOf(w)) else Word(w)
  }

  function Cons(t: Tok, rest: Option<seq<Tok>>): Option<seq<Tok>> {
    match rest case None => None case Some(ts) => Some([t] + ts)
  }

  /** The tokens of a text; None for an unexpected character or an open quote. */
  function Lex(s: Key): Option<seq<Tok>>
    decreases |s|
  {
    if s == [] then Some([])
    else if IsSpace(s[0]) then Lex(s[1..])
    else if s[0] == 44 then Cons(CommaTok, Lex(s[1..]))
    else if s[0] == 61 then Cons(OpTok(Eq), Lex(s[1..]))
    else if s[0] == 62 then Cons(OpTok(Gt), Lex(s[1..]))
    else if s[0] == 60 then Cons(OpTok(Lt), Lex(s[1..]))
    else if s[0] == QUOTE then
      var n := QuoteLen(s[1..]);
      if n == |s| - 1 then None else Cons(StrTok(s[1..n + 1]), Lex(s[n + 2..]))
    else if IsWordByte(s[0]) then
      var n := WordLen(s);
      Cons(WordTok(s[..n]), Lex(s[n..]))
    else None
  }

  function Append(ts: seq<Tok>, rest: Option<seq<Tok>>): Option<seq<Tok>> {
    match rest case None => None case Some(more) => Some(ts + more)
  }

  lemma AppendCons(ts: seq<Tok>, t: Tok, rest: Option<seq<Tok>>)
    ensures Append(ts, Cons(t, rest)) == Append(ts + [t], rest)
  {
    if rest.Some? { assert ts + ([t] + rest.value) == ts + [t] + rest.value; }
  }

  method WordEnd(input: Key, start: nat) returns (end: nat)
    requires start <= |input|
    ensures start <= end <= |input| && end - start == WordLen(input[start..])
  {
    end := start;
    while end < |input| && IsWordByte(input[end])
      invariant start <= end <= |input| && WordLen(input[start..]) == end - start + WordLen(input[end..])
    {
      assert input[end..][1..] == input[end + 1..];
      end := end + 1;
    }
  }

  method QuoteEnd(input: Key, start: nat) returns (end: nat)
    requires start <= |input|
    ensures start <= end <= |input| && end - start == QuoteLen(input[start..])
  {
    end := start;
    while end < |input| && input[end] != QUOTE
      invariant start <= end <= |input| && QuoteLen(input[start..]) == end - start + QuoteLen(input[end..])
    {
      assert input[end..][1..] == input[end + 1..];
      end := end + 1;
    }
  }

  /** A token of one byte. */
  function Sign(c: Byte): Option<Tok> {
    if c == 44 then Some(CommaTok)
    else if c == 61 then Some(OpTok(Eq))
    else if c == 62 then Some(OpTok(Gt))
    else if c == 60 then Some(OpTok(Lt))
    else None
  }

  /** Blanks, tabs and line ends between tokens do not matter. */
  lemma BlanksSkipped(c: Byte, s: Key)
    requires c == 32 || 9 <= c <= 13
    ensures Lex([c] + s) == Lex(s)
  {
    assert ([c] + s)[1..] == s;
  }

  lemma LexSpace(s: Key, i: nat)
    requires i < |s| && IsSpace(s[i])
    ensures Lex(s[i..]) == Lex(s[i + 1..])
  {
    assert s[i..][1..] == s[i + 1..];
  }

  lemma LexSign(s: Key, i: nat)
    requires i < |s| && Sign(s[i]).Some?
    ensures Lex(s[i..]) == Cons(Sign(s[i]).value, Lex(s[i + 1..]))
  {
    assert s[i..][1..] == s[i + 1..];
  }

  lemma LexQuoted(s: Key, i: nat, end: nat)
    requires i < |s| && s[i] == QUOTE && i < end <= |s| && end - (i + 1) == QuoteLen(s[i + 1..])
    ensures Lex(s[i..]) == if end == |s| then None else Cons(StrTok(s[i + 1..end]), Lex(s[end + 1..]))
  {
    var t := s[i..];
    var n := end - i - 1;
    assert t[1..] == s[i + 1..];
    if end < |s| {
      assert t[1..n + 1] == s[i + 1..end] && t[n + 2..] == s[end + 1..];
    }
  }

  lemma LexWordAt(s: Key, i: nat, end: nat)
    requires i < |s| && IsWordByte(s[i]) && i <= end <= |s| && end - i == WordLen(s[i..])
    ensures i < end && Lex(s[i..]) == Cons(WordTok(s[i..end]), Lex(s[end..]))
  {
    var t := s[i..];
    assert t[..end - i] == s[i..end] && t[end - i..] == s[end..];
  }

  lemma LexOther(s: Key, i: nat)
    requires i < |s| && !IsSpace(s[i]) && Sign(s[i]).None? && s[i] != QUOTE && !IsWordByte(s[i])
    ensures Lex(s[i..]) == None
  {
  }

  /** Consumes the text from left to right; it never fails but by returning None. */
  method Tokenize(input: Key) returns (r: Option<seq<Tok>>)
    ensures r == Lex(input)
  {
    hide Lex, WordLen, QuoteLen, Cons, WordTok, Sign, IsSpace, IsWordByte;
    var toks: seq<Tok> := [];
    var i := 0;
    assert input[0..] == input;
    AppendNothing(Lex(input));
    while i < |input|
      invariant 0 <= i <= |input| && Lex(input) == Append(toks, Lex(input[i..]))
      decreases |input| - i
    {
      var c := input[i];
      if IsSpace(c) {
        LexSpace(input, i);
        i := i + 1;
      } else if Sign(c).Some? {
        LexSign(input, i);
        AppendCons(toks, Sign(c).value, Lex(input[i + 1..]));
        toks, i := toks + [Sign(c).value], i + 1;
      } else if c == QUOTE {
        var end := QuoteEnd(input, i + 1);
        LexQuoted(input, i, end);
        if end == |input| { return None; }
        AppendCons(toks, StrTok(input[i + 1..end]), Lex(input[end + 1..]));
        toks, i := toks + [StrTok(input[i + 1..end])], end + 1;
      } else if IsWordByte(c) {
        var end := WordEnd(input, i);
        LexWordAt(input, i, end);
        AppendCons(toks, WordTok(input[i..end]), Lex(input[end..]));
        toks, i := toks + [WordTok(input[i..end])], end;
      } else {
        LexOther(input, i);
        return None;
      }
    }
    LexEnds(input, toks);
    r := Some(toks);
  }

  lemma AppendNothing(rest: Option<seq<Tok>>)
    ensures Append([], rest) == rest
  {
    if rest.Some? { assert [] + rest.value == rest.value; }
  }

  lemma LexEnds(input: Key, toks: seq<Tok>)
    ensures Append(toks, Lex(input[|input|..])) == Some(toks)
  {
    assert input[|input|..] == [] && toks + [] == toks;
  }

  // ---- writing tokens ----

  function TokText(t: Tok): Key {
    match t
    case Word(w) => w
    case NumTok(n) => Decimal(n)
    case StrTok(s) => [QUOTE] + s + [QUOTE]
    case OpTok(op) => (match op case Eq => [61] case Gt => [62] case Lt => [60])
    case CommaTok => [44]
  }

  /** Tokens that a text can stand for: words that are no numbers, numbers of 64 bits, strings without quotes. */
  predicate Writable(t: Tok) {
    match t
    case Word(w) => w != [] && (forall i | 0 <= i < |w| :: IsWordByte(w[i])) && !(AllDigits(w) && NumberOf(w) < TWO64)
    case NumTok(n) => n < TWO64
    case StrTok(s) => QUOTE !in s
    case _ => true
  }

  /** The tokens written out, with a blank after each. */
  function Write(ts: seq<Tok>): Key {
    if ts == [] then [] else TokText(ts[0]) + [32] + Write(ts[1..])
  }

  lemma {:induction false} DecimalDigits(n: nat)
    ensures AllDigits(Decimal(n)) && NumberOf(Decimal(n)) == n
  {
    if n < 10 {
      assert [48 + n][..0] == [];
      assert NumberOf([]) == 0;
    } else {
      DecimalDigits(n / 10);
      assert Decimal(n)[..|Decimal(n)| - 1] == Decimal(n / 10);
    }
  }

  lemma WordStops(w: Key, rest: Key)
    requires (forall i | 0 <= i < |w| :: IsWordByte(w[i])) && (rest != [] ==> !IsWordByte(rest[0]))
    ensures WordLen(w + rest) == |w|
  {
    hide IsWordByte, WordLen;
    var all := w + rest;
    var n := WordLen(all);
    assert forall i | 0 <= i < |w| :: all[i] == w[i] && IsWordByte(all[i]);
    assert |w| < |all| ==> all[|w|] == rest[0];
  }

  lemma QuoteStops(s: Key, rest: Key)
    requires QUOTE !in s
    ensures QuoteLen(s + [QUOTE] + rest) == |s|
  {
    var all := s + [QUOTE] + rest;
    assert all[|s|] == QUOTE;
    forall i | 0 <= i < |s|
      ensures all[i] != QUOTE
    {
      assert s[i] in s;
    }
  }

  lemma LexWord(w: Key, rest: Key)
    requires w != [] && (forall i | 0 <= i < |w| :: IsWordByte(w[i])) && (rest != [] ==> !IsWordByte(rest[0]))
    ensures Lex(w + rest) == Cons(WordTok(w), Lex(rest))
  {
    WordStops(w, rest);
    assert (w + rest)[..|w|] == w && (w + rest)[|w|..] == rest;
  }

  lemma LexString(s: Key, rest: Key)
    requires QUOTE !in s
    ensures Lex([QUOTE] + s + [QUOTE] + rest) == Cons(StrTok(s), Lex(rest))
  {
    var all := [QUOTE] + s + [QUOTE] + rest;
    assert all[1..] == s + [QUOTE] + rest;
    QuoteStops(s, rest);
    assert all[1..|s| + 1] == s && all[|s| + 2..] == rest;
  }

  lemma LexOne(t: Tok, rest: Key)
    requires Writable(t)
    ensures Lex(TokText(t) + [32] + rest) == Cons(t, Lex(rest))
  {
    var gap := [32] + rest;
    assert gap[1..] == rest && Lex(gap) == Lex(rest);
    match t {
      case Word(w) =>
        assert w + [32] + rest == w + gap;
        LexWord(w, gap);
      case NumTok(n) =>
        DecimalDigits(n);
        assert Decimal(n) + [32] + rest == Decimal(n) + gap;
        LexWord(Decimal(n), gap);
      case StrTok(s) =>
        assert [QUOTE] + s + [QUOTE] + [32] + rest == [QUOTE] + s + [QUOTE] + gap;
        LexString(s, gap);
      case OpTok(_) => assert (TokText(t) + [32] + rest)[1..] == gap;
      case CommaTok => assert (TokText(t) + [32] + rest)[1..] == gap;
    }
  }

  /** Writing tokens and reading them back. */
  lemma {:induction false} LexWrite(ts: seq<Tok>)
    requires forall i | 0 <= i < |ts| :: Writable(ts[i])
    ensures Lex(Write(ts)) == Some(ts)
  {
    if ts != [] {
      LexWrite(ts[1..]);
      LexOne(ts[0], Write(ts[1..]));
      assert [ts[0]] + ts[1..] == ts;
    }
  }

  /** Every text that has tokens has writable ones. */
  lemma {:induction false} LexIsWritable(s: Key)
    requires Lex(s).Some?
    ensures forall i | 0 <= i < |Lex(s).value| :: Writable(Lex(s).value[i])
    decreases |s|
  {
    if s != [] {
      if s[0] == QUOTE {
        var n := QuoteLen(s[1..]);
        LexIsWritable(s[n + 2..]);
        assert s[1..n + 1] == s[1..][..n];
      } else if IsWordByte(s[0]) && !IsSpace(s[0]) {
        LexIsWritable(s[WordLen(s)..]);
      } else {
        LexIsWritable(s[1..]);
      }
    }
  }
}
