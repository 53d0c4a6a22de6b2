/** From the text of an analytical query to its plan. */
module QueryCompilers {
  import opened Keys
  import opened Tables
  import opened QueryLexer
  import opened QueryParsers

  /** A logical select over `events`; the predicates by id. */
  datatype Plan = Plan(pids: seq<nat>, grouping: Option<Grouping>)

  function Upto(n: nat): (ids: seq<nat>)
    ensures |ids| == n && forall i | 0 <= i < n :: ids[i] == i
  {
    if n == 0 then [] else Upto(n - 1) + [n - 1]
  }

  /** The meaning of a text. */
  function Compiled(text: Key): Option<Query> {
    match Lex(text) case None => None case Some(toks) => Parse(toks)
  }

  function More<T>(before: seq<T>, rest: Read<seq<T>>): Read<seq<T>> {
    match rest case None => None case Some((ps, j)) => Some((before + ps, j))
  }

  lemma MoreOne<T>(before: seq<T>, x: T, rest: Read<seq<T>>)
    ensures More(before, More([x], rest)) == More(before + [x], rest)
  {
    if rest.Some? { assert before + ([x] + rest.value.0) == before + [x] + rest.value.0; }
  }

  lemma MoreNothing<T>(rest: Read<seq<T>>)
    ensures More<T>([], rest) == rest
  {
    if rest.Some? { assert [] + rest.value.0 == rest.value.0; }
  }

  class Cursor {
    const toks: seq<Tok>
    var i: nat

    constructor (toks: seq<Tok>)
      ensures this.toks == toks && i == 0
    {
      this.toks := toks;
      i := 0;
    }

    method EatWord(kw: Key) returns (ate: bool)
      modifies this`i
      ensures ate == IsKeyword(toks, old(i), kw) && i == old(i) + if ate then 1 else 0
    {
      ate := IsKeyword(toks, i, kw);
      if ate { i := i + 1; }
    }

    method EatComma() returns (ate: bool)
      modifies this`i
      ensures ate == IsComma(toks, old(i)) && i == old(i) + if ate then 1 else 0
    {
      ate := i < |toks| && toks[i].CommaTok?;
      if ate { i := i + 1; }
    }

    method ColumnName(numeric: bool) returns (c: Option<nat>)
      modifies this`i
      ensures match ReadColumn(toks, old(i), numeric)
              case None => c == None
              case Some((d, j)) => c == Some(d) && i == j
    {
      if i >= |toks| || !toks[i].Word? { return None; }
      c := ColumnNamed(toks[i].text);
      i := i + 1;
      if c.Some? && numeric && TYPES[c.value] == Utf8 { return None; }
    }

    method Op() returns (op: Option<CmpOp>)
      modifies this`i
      ensures if old(i) < |toks| && toks[old(i)].OpTok? then op == Some(toks[old(i)].op) && i == old(i) + 1 else op == None
    {
      if i >= |toks| || !toks[i].OpTok? { return None; }
      op := Some(toks[i].op);
      i := i + 1;
    }

    method LiteralOf(isText: bool) returns (l: Option<Literal>)
      modifies this`i
      ensures match ReadLiteral(toks, old(i), isText)
              case None => l == None
              case Some((v, j)) => l == Some(v) && i == j
    {
      if i >= |toks| { return None; }
      match toks[i] {
        case StrTok(s) =>
          if !isText { return None; }
          l := Some(LitText(s));
        case NumTok(n) =>
          if isText { return None; }
          l := Some(LitNum(n));
        case _ => return None;
      }
      i := i + 1;
    }

    method OnePredicate() returns (p: Option<Predicate>)
      modifies this`i
      ensures match ReadPredicate(toks, old(i))
              case None => p == None
              case Some((q, j)) => p == Some(q) && i == j
    {
      hide ReadColumn, ReadLiteral;
      ghost var start := i;
      var c := ColumnName(false);
      if c.None? { return None; }
      ReadColumnOk(toks, start, false);
      var op := Op();
      if op.None? { return None; }
      var l := LiteralOf(TYPES[c.value] == Utf8);
      if l.None? { return None; }
      ReadLiteralOk(toks, start + 2, TYPES[c.value] == Utf8);
      p := Some(Predicate(c.value, op.value, l.value));
    }

    /** `<pred> (AND <pred>)*` */
    method Predicates() returns (ps: Option<seq<Predicate>>)
      modifies this`i
      ensures match ReadPredicates(toks, old(i))
              case None => ps == None
              case Some((qs, j)) => ps == Some(qs) && i == j
    {
      hide ReadPredicate, IsKeyword;
      var found: seq<Predicate> := [];
      ghost var start := i;
      MoreNothing(ReadPredicates(toks, i));
      var more := true;
      while more
        invariant more ==> ReadPredicates(toks, start) == More(found, ReadPredicates(toks, i))
        invariant !more ==> ReadPredicates(toks, start) == Some((found, i))
        decreases more, |toks| - i
      {
        ghost var at := i;
        ReadPredicatesIs(toks, at);
        var p := OnePredicate();
        if p.None? { return None; }
        ReadPredicateOk(toks, at);
        MoreOne(found, p.value, ReadPredicates(toks, i + 1));
        found := found + [p.value];
        more := EatWord(AND);
      }
      ps := Some(found);
    }

    /** `<col> (, <col>)*` */
    method Columns(numeric: bool) returns (cs: Option<seq<nat>>)
      modifies this`i
      ensures match ReadColumns(toks, old(i), numeric)
              case None => cs == None
              case Some((ds, j)) => cs == Some(ds) && i == j
    {
      hide ReadColumn;
      var found: seq<nat> := [];
      ghost var start := i;
      MoreNothing(ReadColumns(toks, i, numeric));
      var more := true;
      while more
        invariant more ==> ReadColumns(toks, start, numeric) == More(found, ReadColumns(toks, i, numeric))
        invariant !more ==> ReadColumns(toks, start, numeric) == Some((found, i))
        decreases more, |toks| - i
      {
        ghost var at := i;
        ReadColumnsIs(toks, at, numeric);
        var c := ColumnName(numeric);
        if c.None? { return None; }
        ReadColumnIn(toks, at, numeric);
        MoreOne(found, c.value, ReadColumns(toks, i + 1, numeric));
        found := found + [c.value];
        more := EatComma();
      }
      cs := Some(found);
    }

    method Where() returns (ps: Option<seq<Predicate>>)
      modifies this`i
      ensures match ReadWhere(toks, old(i))
              case None => ps == None
              case Some((qs, j)) => ps == Some(qs) && i == j
    {
      hide ReadPredicates, IsKeyword;
      var there := EatWord(WHERE);
      if there { ps := Predicates(); } else { ps := Some([]); }
    }

    method GroupBy() returns (g: Option<Option<Grouping>>)
      modifies this`i
      ensures match ReadGrouping(toks, old(i))
              case None => g == None
              case Some((h, j)) => g == Some(h) && i == j
    {
      hide ReadColumns, IsKeyword;
      var there := EatWord(GROUP);
      if !there { return Some(None); }
      var byToo := EatWord(BY);
      if !byToo { return None; }
      var keys := Columns(false);
      if keys.None? { return None; }
      var sums: Option<seq<nat>> := Some([]);
      var sum := EatWord(SUM);
      if sum { sums := Columns(true); }
      if sums.None? { return None; }
      g := Some(Some(Grouping(keys.value, sums.value)));
    }
  }

  lemma ReadLiteralOk(toks: seq<Tok>, i: nat, isText: bool)
    requires ReadLiteral(toks, i, isText).Some?
    ensures ReadLiteral(toks, i, isText).value.1 == i + 1
  {
  }

  lemma ReadColumnIn(toks: seq<Tok>, i: nat, numeric: bool)
    requires ReadColumn(toks, i, numeric).Some?
    ensures ReadColumn(toks, i, numeric).value.1 == i + 1 <= |toks|
  {
  }

  lemma ReadPredicatesIs(toks: seq<Tok>, i: nat)
    ensures ReadPredicates(toks, i) == match ReadPredicate(toks, i)
                                       case None => None
                                       case Some((p, j)) => if IsKeyword(toks, j, AND) then More([p], ReadPredicates(toks, j + 1)) else Some(([p], j))
  {
  }

  lemma ReadColumnsIs(toks: seq<Tok>, i: nat, numeric: bool)
    ensures ReadColumns(toks, i, numeric) == match ReadColumn(toks, i, numeric)
                                             case None => None
                                             case Some((c, j)) => if IsComma(toks, j) then More([c], ReadColumns(toks, j + 1, numeric)) else Some(([c], j))
  {
  }

  /** The plan of a text and the predicates it refers to: id `k` is predicate `k`. */
  method Compile(text: Key) returns (r: Option<(Plan, seq<Predicate>)>)
    ensures match Compiled(text)
            case None => r == None
            case Some(q) => r == Some((Plan(Upto(|q.predicates|), q.grouping), q.predicates))
  {
    hide Lex, ReadWhere, ReadGrouping, IsKeyword;
    var toks := Tokenize(text);
    if toks.None? { return None; }
    var cursor := new Cursor(toks.value);
    var select := cursor.EatWord(SELECT);
    if !select { return None; }
    var ps := cursor.Where();
    if ps.None? { return None; }
    var g := cursor.GroupBy();
    if g.None? || cursor.i != |toks.value| { return None; }
    r := Some((Plan(Upto(|ps.value|), g.value), ps.value));
  }

  // ---- text in, query out ----

  /** Numbers of 64 bits and strings without quotes: what a text can hold. */
  ghost predicate LiteralsOk(q: Query) { forall p | p in q.predicates :: Writable(LiteralTok(p.value)) }

  /** The compiler accepts exactly the texts whose tokens spell a well-typed query, and answers with that query. */
  lemma CompileIff(text: Key, q: Query)
    ensures Compiled(text) == Some(q) <==> Lex(text).Some? && QueryOk(q) && Spells(Lex(text).value, q)
  {
    if Lex(text).Some? { ParseIff(Lex(text).value, q); }
  }

  ghost predicate Keyword(w: Key) { w in {SELECT, WHERE, AND, GROUP, BY, SUM} }

  /** The tokens a query is shown with. */
  ghost predicate Shown(t: Tok) {
    match t
    case Word(w) => Keyword(w) || exists c: nat :: c < |COLUMNS| && w == COLUMNS[c]
    case _ => Writable(t)
  }

  ghost predicate AllShown(ts: seq<Tok>) { forall t | t in ts :: Shown(t) }

  lemma ColumnShown(c: nat)
    requires c < |TYPES|
    ensures Shown(ColumnTok(c))
  {
  }

  lemma {:induction false} PredicatesShown(ps: seq<Predicate>)
    requires WellTyped(ps) && forall p | p in ps :: Writable(LiteralTok(p.value))
    ensures AllShown(ShowPredicates(ps))
  {
    hide Typed, Writable;
    if ps != [] {
      var p := ps[0];
      assert p in ps;
      assert AllShown(ShowPredicate(p)) by { OneShown(p); }
      if |ps| > 1 {
        assert forall x | x in ps[1..] :: x in ps;
        PredicatesShown(ps[1..]);
      }
    }
  }

  lemma OneShown(p: Predicate)
    requires Typed(p, TYPES) && Writable(LiteralTok(p.value))
    ensures AllShown(ShowPredicate(p))
  {
    ColumnShown(p.column);
  }

  lemma {:induction false} ColumnsShown(cs: seq<nat>)
    requires forall c | c in cs :: c < |TYPES|
    ensures AllShown(ShowColumns(cs))
  {
    hide ColumnTok;
    if cs != [] {
      assert cs[0] in cs;
      ColumnShown(cs[0]);
      if |cs| > 1 {
        assert forall c | c in cs[1..] :: c in cs;
        ColumnsShown(cs[1..]);
      }
    }
  }

  lemma QueryShown(q: Query)
    requires QueryOk(q) && LiteralsOk(q)
    ensures AllShown(Show(q))
  {
    hide ShowPredicates, ShowColumns;
    PredicatesShown(q.predicates);
    if q.grouping.Some? {
      ColumnsShown(q.grouping.value.keys);
      ColumnsShown(q.grouping.value.sums);
    }
  }

  lemma LetterWord(w: Key, i: nat)
    requires w != [] && i < |w| && (forall k | 0 <= k < |w| :: IsWordByte(w[k])) && !IsDigit(w[i])
    ensures Writable(Word(w))
  {
  }

  ghost predicate Small(w: Key) { w != [] && 97 <= w[0] && forall k | 0 <= k < |w| :: w[k] == 95 || 97 <= w[k] <= 122 }

  lemma ColumnWritable(c: nat)
    requires c < |COLUMNS|
    ensures Writable(Word(COLUMNS[c]))
  {
    assert Small(LSN) && Small(AGENT_ID) && Small(KIND) && Small(TS_HLC) && Small(CONTENT_LEN);
    LetterWord(COLUMNS[c], 0);
  }

  lemma KeywordWritable(w: Key, kw: Key)
    requires Keyword(kw) && SameLetters(w, kw)
    ensures Writable(Word(w))
  {
    assert 65 <= kw[0] <= 90;
    forall k | 0 <= k < |w|
      ensures IsWordByte(w[k])
    {
      assert 65 <= kw[k] <= 90 && Upper(w[k]) == Upper(kw[k]);
    }
    assert Upper(w[0]) == Upper(kw[0]);
    LetterWord(w, 0);
  }

  lemma LikeWritable(t: Tok, shown: Tok)
    requires Shown(shown) && TokLike(t, shown)
    ensures Writable(t)
  {
    hide SameLetters;
    if shown.Word? && Keyword(shown.text) {
      SameSelf(shown.text);
      KeywordWritable(t.text, shown.text);
    } else if shown.Word? {
      var c: nat :| c < |COLUMNS| && shown.text == COLUMNS[c];
      ColumnWritable(c);
    }
  }

  lemma SameSelf(w: Key)
    ensures SameLetters(w, w)
  {
  }

  /** Writing a query down, with the keywords in any case, and compiling the text gives the query back. */
  lemma CompileRoundTrip(q: Query, toks: seq<Tok>)
    requires QueryOk(q) && LiteralsOk(q) && Spells(toks, q)
    ensures Compiled(Write(toks)) == Some(q)
  {
    QueryShown(q);
    forall i | 0 <= i < |toks|
      ensures Writable(toks[i])
    {
      assert Show(q)[i] in Show(q) && TokLike(toks[0 + i], Show(q)[i]);
      LikeWritable(toks[i], Show(q)[i]);
    }
    LexWrite(toks);
    CompileIff(Write(toks), q);
  }

  /** Whatever the text, a compiled query has literals that a text can hold. */
  lemma CompiledLiterals(text: Key)
    requires Compiled(text).Some?
    ensures LiteralsOk(Compiled(text).value)
  {
    var q := Compiled(text).value;
    var toks := Lex(text).value;
    LexIsWritable(text);
    CompileIff(text, q);
    forall p | p in q.predicates
      ensures Writable(LiteralTok(p.value))
    {
      LiteralIsShown(q, p);
      var k :| 0 <= k < |Show(q)| && Show(q)[k] == LiteralTok(p.value);
      assert TokLike(toks[0 + k], Show(q)[k]);
    }
  }

  lemma {:induction false} LiteralInPredicates(ps: seq<Predicate>, p: Predicate)
    requires p in ps
    ensures LiteralTok(p.value) in ShowPredicates(ps)
  {
    assert ShowPredicate(ps[0])[2] == LiteralTok(ps[0].value);
    if p == ps[0] {
      assert LiteralTok(p.value) in ShowPredicate(ps[0]);
    } else {
      LiteralInPredicates(ps[1..], p);
    }
  }

  lemma LiteralIsShown(q: Query, p: Predicate)
    requires p in q.predicates
    ensures LiteralTok(p.value) in Show(q)
  {
    hide ShowPredicates, ShowGrouping;
    LiteralInPredicates(q.predicates, p);
  }
}
