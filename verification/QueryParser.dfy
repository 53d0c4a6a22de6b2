/** The analytical query language: its grammar, and the cursor that reads it. */
module QueryParsers {
  import opened Keys
  import opened Tables
  import opened Aggregates
  import opened QueryLexer

  datatype Grouping = Grouping(keys: seq<nat>, sums: seq<nat>)

  datatype Query = Query(predicates: seq<Predicate>, grouping: Option<Grouping>)

  // ---- the schema of `events` ----

  const LSN: Key := [108, 115, 110]
  const AGENT_ID: Key := [97, 103, 101, 110, 116, 95, 105, 100]
  const KIND: Key := [107, 105, 110, 100]
  const TS_HLC: Key := [116, 115, 95, 104, 108, 99]
  const CONTENT_LEN: Key := [99, 111, 110, 116, 101, 110, 116, 95, 108, 101, 110]

  const COLUMNS: seq<Key> := [LSN, AGENT_ID, KIND, TS_HLC, CONTENT_LEN]
  const TYPES: seq<ColType> := [U64, Utf8, Utf8, U64, U64]

  function ColumnNamed(name: Key): Option<nat> {
    if name == LSN then Some(0)
    else if name == AGENT_ID then Some(1)
    else if name == KIND then Some(2)
    else if name == TS_HLC then Some(3)
    else if name == CONTENT_LEN then Some(4)
    else None
  }

  lemma ColumnIs(name: Key, c: nat)
    ensures ColumnNamed(name) == Some(c) <==> c < |COLUMNS| && name == COLUMNS[c]
  {
    assert |LSN| == 3 && |AGENT_ID| == 8 && |KIND| == 4 && |TS_HLC| == 6 && |CONTENT_LEN| == 11;
  }

  // ---- keywords ----

  const SELECT: Key := [83, 69, 76, 69, 67, 84]
  const WHERE: Key := [87, 72, 69, 82, 69]
  const AND: Key := [65, 78, 68]
  const GROUP: Key := [71, 82, 79, 85, 80]
  const BY: Key := [66, 89]
  const SUM: Key := [83, 85, 77]

  function Upper(c: Byte): Byte { if 97 <= c <= 122 then c - 32 else c }

  predicate SameLetters(w: Key, kw: Key) { |w| == |kw| && forall i | 0 <= i < |w| :: Upper(w[i]) == Upper(kw[i]) }

  /** Token `i` is the keyword, in whatever case. */
  predicate IsKeyword(toks: seq<Tok>, i: nat, kw: Key) { i < |toks| && toks[i].Word? && SameLetters(toks[i].text, kw) }

  // ---- what a query looks like, keywords in capitals ----

  function LiteralTok(l: Literal): Tok {
    match l case LitNum(n) => NumTok(n) case LitText(s) => StrTok(s)
  }

  function ColumnTok(c: nat): Tok { Word(if c < |COLUMNS| then COLUMNS[c] else []) }

  function ShowPredicate(p: Predicate): seq<Tok> { [ColumnTok(p.column), OpTok(p.op), LiteralTok(p.value)] }

  function ShowPredicates(ps: seq<Predicate>): seq<Tok> {
    if ps == [] then [] else if |ps| == 1 then ShowPredicate(ps[0]) else ShowPredicate(ps[0]) + [Word(AND)] + ShowPredicates(ps[1..])
  }

  function ShowColumns(cs: seq<nat>): seq<Tok> {
    if cs == [] then [] else if |cs| == 1 then [ColumnTok(cs[0])] else [ColumnTok(cs[0]), CommaTok] + ShowColumns(cs[1..])
  }

  function ShowWhere(ps: seq<Predicate>): seq<Tok> { if ps == [] then [] else [Word(WHERE)] + ShowPredicates(ps) }

  function ShowSums(sums: seq<nat>): seq<Tok> { if sums == [] then [] else [Word(SUM)] + ShowColumns(sums) }

  function ShowGrouping(g: Option<Grouping>): seq<Tok> {
    match g
    case None => []
    case Some(Grouping(keys, sums)) => [Word(GROUP), Word(BY)] + ShowColumns(keys) + ShowSums(sums)
  }

  function Show(q: Query): seq<Tok> { [Word(SELECT)] + ShowWhere(q.predicates) + ShowGrouping(q.grouping) }

  ghost predicate WellTyped(ps: seq<Predicate>) { forall p | p in ps :: Typed(p, TYPES) }

  ghost predicate ColumnsOk(cs: seq<nat>, numeric: bool) { forall c | c in cs :: c < |TYPES| && (numeric ==> TYPES[c] == U64) }

  ghost predicate GroupingOk(g: Grouping) { g.keys != [] && ColumnsOk(g.keys, false) && ColumnsOk(g.sums, true) }

  /** Predicates have literals of their column's type, grouping needs a key, sums are over numbers. */
  ghost predicate QueryOk(q: Query) {
    WellTyped(q.predicates) && (q.grouping.Some? ==> GroupingOk(q.grouping.value))
  }

  /** Two tokens alike: equal, or the same keyword in another case. */
  predicate TokLike(t: Tok, shown: Tok) {
    t == shown || (t.Word? && shown.Word? && shown.text in {SELECT, WHERE, AND, GROUP, BY, SUM} && SameLetters(t.text, shown.text))
  }

  /** From `i` on, the tokens spell the pattern. */
  predicate SpellsAt(toks: seq<Tok>, i: nat, pattern: seq<Tok>) {
    i + |pattern| <= |toks| && forall k | 0 <= k < |pattern| :: TokLike(toks[i + k], pattern[k])
  }

  /** The tokens spell the query, and nothing more. */
  predicate Spells(toks: seq<Tok>, q: Query) { |toks| == |Show(q)| && SpellsAt(toks, 0, Show(q)) }

  // ---- reading by position ----

  type Read<T> = Option<(T, nat)>

  function ReadColumn(toks: seq<Tok>, i: nat, numeric: bool): Read<nat> {
    if i < |toks| && toks[i].Word? then
      match ColumnNamed(toks[i].text)
      case None => None
      case Some(c) => if numeric && TYPES[c] == Utf8 then None else Some((c, i + 1))
    else None
  }

  function ReadLiteral(toks: seq<Tok>, i: nat, isText: bool): Read<Literal> {
    if i < |toks| && toks[i].StrTok? && isText then Some((LitText(toks[i].text), i + 1))
    else if i < |toks| && toks[i].NumTok? && !isText then Some((LitNum(toks[i].num), i + 1))
    else None
  }

  function ReadPredicate(toks: seq<Tok>, i: nat): Read<Predicate> {
    match ReadColumn(toks, i, false)
    case None => None
    case Some((c, _)) =>
      if !(i + 1 < |toks| && toks[i + 1].OpTok?) then None
      else match ReadLiteral(toks, i + 2, TYPES[c] == Utf8)
        case None => None
        case Some((v, _)) => Some((Predicate(c, toks[i + 1].op, v), i + 3))
  }

  function ReadPredicates(toks: seq<Tok>, i: nat): Read<seq<Predicate>>
    decreases |toks| - i
  {
    match ReadPredicate(toks, i)
    case None => None
    case Some((p, j)) =>
      if !IsKeyword(toks, j, AND) then Some(([p], j))
      else match ReadPredicates(toks, j + 1)
        case None => None
        case Some((ps, k)) => Some(([p] + ps, k))
  }

  function ReadColumns(toks: seq<Tok>, i: nat, numeric: bool): Read<seq<nat>>
    decreases |toks| - i
  {
    match ReadColumn(toks, i, numeric)
    case None => None
    case Some((c, j)) =>
      if !(j < |toks| && toks[j].CommaTok?) then Some(([c], j))
      else match ReadColumns(toks, j + 1, numeric)
        case None => None
        case Some((cs, k)) => Some(([c] + cs, k))
  }

  function ReadWhere(toks: seq<Tok>, i: nat): Read<seq<Predicate>> {
    if IsKeyword(toks, i, WHERE) then ReadPredicates(toks, i + 1) else Some(([], i))
  }

  function ReadSums(toks: seq<Tok>, i: nat): Read<seq<nat>> {
    if IsKeyword(toks, i, SUM) then ReadColumns(toks, i + 1, true) else Some(([], i))
  }

  function ReadGrouping(toks: seq<Tok>, i: nat): Read<Option<Grouping>> {
    if !IsKeyword(toks, i, GROUP) then Some((None, i))
    else if !IsKeyword(toks, i + 1, BY) then None
    else match ReadColumns(toks, i + 2, false)
      case None => None
      case Some((keys, j)) =>
        match ReadSums(toks, j)
        case None => None
        case Some((sums, k)) => Some((Some(Grouping(keys, sums)), k))
  }

  /** The query that the tokens spell, if any. */
  function Parse(toks: seq<Tok>): Option<Query> {
    if !IsKeyword(toks, 0, SELECT) then None
    else match ReadWhere(toks, 1)
      case None => None
      case Some((ps, i)) =>
        match ReadGrouping(toks, i)
        case None => None
        case Some((g, j)) => if j == |toks| then Some(Query(ps, g)) else None
  }

  // ---- reading accepts what is shown, and nothing else ----

  lemma SpellsJoin(toks: seq<Tok>, i: nat, a: seq<Tok>, b: seq<Tok>)
    ensures SpellsAt(toks, i, a + b) <==> SpellsAt(toks, i, a) && SpellsAt(toks, i + |a|, b)
  {
    hide TokLike;
    var ab := a + b;
    if SpellsAt(toks, i, ab) {
      assert forall k | 0 <= k < |a| :: ab[k] == a[k];
      forall k | 0 <= k < |b|
        ensures TokLike(toks[i + |a| + k], b[k])
      {
        assert ab[|a| + k] == b[k] && TokLike(toks[i + (|a| + k)], ab[|a| + k]);
      }
    }
    if SpellsAt(toks, i, a) && SpellsAt(toks, i + |a|, b) {
      forall k | 0 <= k < |ab|
        ensures TokLike(toks[i + k], ab[k])
      {
        if k < |a| {
          assert ab[k] == a[k];
        } else {
          assert ab[k] == b[k - |a|] && TokLike(toks[i + |a| + (k - |a|)], b[k - |a|]);
        }
      }
    }
  }

  lemma SpellsOne(toks: seq<Tok>, i: nat, t: Tok)
    ensures SpellsAt(toks, i, [t]) <==> i < |toks| && TokLike(toks[i], t)
  {
    hide TokLike;
    if i < |toks| && TokLike(toks[i], t) {
      assert forall k | 0 <= k < |[t]| :: [t][k] == t && toks[i + k] == toks[i];
    }
    if SpellsAt(toks, i, [t]) {
      assert TokLike(toks[i + 0], [t][0]);
    }
  }

  /** A keyword is none of the columns. */
  lemma NoColumn(c: nat)
    requires c < |COLUMNS|
    ensures COLUMNS[c] !in {SELECT, WHERE, AND, GROUP, BY, SUM}
  {
    assert COLUMNS[c][0] >= 97;
    assert SELECT[0] < 97 && WHERE[0] < 97 && AND[0] < 97 && GROUP[0] < 97 && BY[0] < 97 && SUM[0] < 97;
  }

  lemma SpellsKeyword(toks: seq<Tok>, i: nat, kw: Key)
    requires kw in {SELECT, WHERE, AND, GROUP, BY, SUM}
    ensures SpellsAt(toks, i, [Word(kw)]) <==> IsKeyword(toks, i, kw)
  {
    SpellsOne(toks, i, Word(kw));
  }

  lemma SpellsColumn(toks: seq<Tok>, i: nat, c: nat, numeric: bool)
    requires c < |TYPES| && (numeric ==> TYPES[c] == U64)
    ensures SpellsAt(toks, i, [ColumnTok(c)]) <==> ReadColumn(toks, i, numeric) == Some((c, i + 1))
  {
    SpellsOne(toks, i, ColumnTok(c));
    NoColumn(c);
    if i < |toks| && toks[i].Word? { ColumnIs(toks[i].text, c); }
  }

  lemma ReadColumnOk(toks: seq<Tok>, i: nat, numeric: bool)
    requires ReadColumn(toks, i, numeric).Some?
    ensures ReadColumn(toks, i, numeric).value.1 == i + 1 && ReadColumn(toks, i, numeric).value.0 < |TYPES|
    ensures numeric ==> TYPES[ReadColumn(toks, i, numeric).value.0] == U64
  {
  }

  lemma SpellsPredicate(toks: seq<Tok>, i: nat, p: Predicate)
    requires Typed(p, TYPES)
    ensures SpellsAt(toks, i, ShowPredicate(p)) <==> ReadPredicate(toks, i) == Some((p, i + 3))
  {
    SpellsColumn(toks, i, p.column, false);
    SpellsOne(toks, i + 1, OpTok(p.op));
    SpellsOne(toks, i + 2, LiteralTok(p.value));
    assert ShowPredicate(p) == [ColumnTok(p.column)] + ([OpTok(p.op)] + [LiteralTok(p.value)]);
    SpellsJoin(toks, i, [ColumnTok(p.column)], [OpTok(p.op)] + [LiteralTok(p.value)]);
    SpellsJoin(toks, i + 1, [OpTok(p.op)], [LiteralTok(p.value)]);
    LiteralSpelled(toks, i + 2, p);
  }

  lemma LiteralSpelled(toks: seq<Tok>, i: nat, p: Predicate)
    requires Typed(p, TYPES)
    ensures (i < |toks| && TokLike(toks[i], LiteralTok(p.value))) <==> ReadLiteral(toks, i, TYPES[p.column] == Utf8) == Some((p.value, i + 1))
  {
  }

  lemma ReadPredicateOk(toks: seq<Tok>, i: nat)
    requires ReadPredicate(toks, i).Some?
    ensures ReadPredicate(toks, i).value.1 == i + 3 <= |toks| && Typed(ReadPredicate(toks, i).value.0, TYPES)
  {
  }

  /** What is read as a list of predicates is well typed and shown like that. */
  lemma {:induction false} PredicatesSound(toks: seq<Tok>, i: nat)
    requires ReadPredicates(toks, i).Some?
    ensures var (ps, j) := ReadPredicates(toks, i).value;
            ps != [] && WellTyped(ps) && SpellsAt(toks, i, ShowPredicates(ps)) && j == i + |ShowPredicates(ps)| && !IsKeyword(toks, j, AND)
    decreases |toks| - i
  {
    hide ReadPredicate, SpellsAt, ShowPredicate, IsKeyword, Typed;
    var (p, j) := ReadPredicate(toks, i).value;
    ReadPredicateOk(toks, i);
    SpellsPredicate(toks, i, p);
    ShowsThree(p);
    if IsKeyword(toks, j, AND) {
      PredicatesSound(toks, j + 1);
      var (ps, k) := ReadPredicates(toks, j + 1).value;
      SpellsMore(toks, i, p, ps);
      assert ([p] + ps)[1..] == ps;
    } else {
      assert [p][0] == p;
    }
  }

  lemma ShowsThree(p: Predicate)
    ensures |ShowPredicate(p)| == 3
  {
  }

  lemma SpellsMore(toks: seq<Tok>, i: nat, p: Predicate, ps: seq<Predicate>)
    requires ps != []
    ensures |ShowPredicates([p] + ps)| == 4 + |ShowPredicates(ps)|
    ensures SpellsAt(toks, i, ShowPredicates([p] + ps))
            <==> SpellsAt(toks, i, ShowPredicate(p)) && IsKeyword(toks, i + 3, AND) && SpellsAt(toks, i + 4, ShowPredicates(ps))
  {
    hide SpellsAt, IsKeyword, ShowPredicate;
    assert ([p] + ps)[1..] == ps;
    ShowsThree(p);
    SpellsJoin(toks, i, ShowPredicate(p) + [Word(AND)], ShowPredicates(ps));
    SpellsJoin(toks, i, ShowPredicate(p), [Word(AND)]);
    SpellsKeyword(toks, i + 3, AND);
  }

  lemma {:induction false} PredicatesComplete(toks: seq<Tok>, i: nat, ps: seq<Predicate>)
    requires ps != [] && WellTyped(ps) && SpellsAt(toks, i, ShowPredicates(ps)) && !IsKeyword(toks, i + |ShowPredicates(ps)|, AND)
    ensures ReadPredicates(toks, i) == Some((ps, i + |ShowPredicates(ps)|))
    decreases |ps|
  {
    hide ReadPredicate, SpellsAt, ShowPredicate, IsKeyword, Typed;
    var p := ps[0];
    ShowsThree(p);
    SpellsPredicate(toks, i, p);
    if |ps| == 1 {
      assert ps == [p];
    } else {
      assert ps == [p] + ps[1..];
      SpellsMore(toks, i, p, ps[1..]);
      ReadPredicateOk(toks, i);
      PredicatesComplete(toks, i + 4, ps[1..]);
    }
  }

  predicate IsComma(toks: seq<Tok>, i: nat) { i < |toks| && toks[i].CommaTok? }

  lemma SpellsComma(toks: seq<Tok>, i: nat)
    ensures SpellsAt(toks, i, [CommaTok]) <==> IsComma(toks, i)
  {
    SpellsOne(toks, i, CommaTok);
  }

  lemma SpellsMoreColumns(toks: seq<Tok>, i: nat, c: nat, cs: seq<nat>)
    requires cs != []
    ensures |ShowColumns([c] + cs)| == 2 + |ShowColumns(cs)|
    ensures SpellsAt(toks, i, ShowColumns([c] + cs))
            <==> SpellsAt(toks, i, [ColumnTok(c)]) && IsComma(toks, i + 1) && SpellsAt(toks, i + 2, ShowColumns(cs))
  {
    hide SpellsAt, IsComma;
    assert ([c] + cs)[1..] == cs;
    assert [ColumnTok(c), CommaTok] == [ColumnTok(c)] + [CommaTok];
    SpellsJoin(toks, i, [ColumnTok(c)] + [CommaTok], ShowColumns(cs));
    SpellsJoin(toks, i, [ColumnTok(c)], [CommaTok]);
    SpellsComma(toks, i + 1);
  }

  lemma {:induction false} ColumnsSound(toks: seq<Tok>, i: nat, numeric: bool)
    requires ReadColumns(toks, i, numeric).Some?
    ensures var (cs, j) := ReadColumns(toks, i, numeric).value;
            cs != [] && ColumnsOk(cs, numeric) && SpellsAt(toks, i, ShowColumns(cs)) && j == i + |ShowColumns(cs)| && !IsComma(toks, j)
    decreases |toks| - i
  {
    hide ReadColumn, SpellsAt, ColumnTok;
    var (c, j) := ReadColumn(toks, i, numeric).value;
    ReadColumnOk(toks, i, numeric);
    SpellsColumn(toks, i, c, numeric);
    if IsComma(toks, j) {
      ColumnsSound(toks, j + 1, numeric);
      var (cs, k) := ReadColumns(toks, j + 1, numeric).value;
      SpellsMoreColumns(toks, i, c, cs);
      assert ([c] + cs)[1..] == cs;
    } else {
      assert [c][0] == c;
    }
  }

  lemma {:induction false} ColumnsComplete(toks: seq<Tok>, i: nat, cs: seq<nat>, numeric: bool)
    requires cs != [] && ColumnsOk(cs, numeric) && SpellsAt(toks, i, ShowColumns(cs)) && !IsComma(toks, i + |ShowColumns(cs)|)
    ensures ReadColumns(toks, i, numeric) == Some((cs, i + |ShowColumns(cs)|))
    decreases |cs|
  {
    hide ReadColumn, SpellsAt, ColumnTok;
    var c := cs[0];
    assert c in cs;
    SpellsColumn(toks, i, c, numeric);
    if |cs| == 1 {
      assert cs == [c];
    } else {
      assert cs == [c] + cs[1..];
      SpellsMoreColumns(toks, i, c, cs[1..]);
      assert forall d | d in cs[1..] :: d in cs;
      ColumnsComplete(toks, i + 2, cs[1..], numeric);
    }
  }

  // ---- the optional parts ----

  lemma OneKeyword(toks: seq<Tok>, i: nat)
    requires IsKeyword(toks, i, GROUP)
    ensures !IsKeyword(toks, i, AND) && !IsKeyword(toks, i, WHERE) && !IsKeyword(toks, i, SUM)
  {
    assert Upper(toks[i].text[0]) == Upper(GROUP[0]) && Upper(WHERE[0]) == 87;
  }

  lemma WhereSound(toks: seq<Tok>, i: nat)
    requires i <= |toks| && ReadWhere(toks, i).Some?
    ensures var (ps, j) := ReadWhere(toks, i).value; WellTyped(ps) && SpellsAt(toks, i, ShowWhere(ps)) && j == i + |ShowWhere(ps)|
  {
    hide ReadPredicates, ShowPredicates, IsKeyword, Typed;
    if IsKeyword(toks, i, WHERE) {
      PredicatesSound(toks, i + 1);
      var ps := ReadPredicates(toks, i + 1).value.0;
      SpellsKeyword(toks, i, WHERE);
      SpellsJoin(toks, i, [Word(WHERE)], ShowPredicates(ps));
    }
  }

  /** Nothing, or the keyword, follows. */
  predicate EndOr(toks: seq<Tok>, i: nat, kw: Key) { i == |toks| || IsKeyword(toks, i, kw) }

  lemma WhereComplete(toks: seq<Tok>, i: nat, ps: seq<Predicate>)
    requires WellTyped(ps) && SpellsAt(toks, i, ShowWhere(ps)) && EndOr(toks, i + |ShowWhere(ps)|, GROUP)
    ensures ReadWhere(toks, i) == Some((ps, i + |ShowWhere(ps)|))
  {
    hide ReadPredicates, ShowPredicates, IsKeyword, Typed, SpellsAt;
    var end := i + |ShowWhere(ps)|;
    NotAtEnd(toks, end);
    if IsKeyword(toks, end, GROUP) { OneKeyword(toks, end); }
    if ps != [] {
      SpellsKeyword(toks, i, WHERE);
      SpellsJoin(toks, i, [Word(WHERE)], ShowPredicates(ps));
      PredicatesComplete(toks, i + 1, ps);
    }
  }

  lemma NotAtEnd(toks: seq<Tok>, i: nat)
    ensures i == |toks| ==> !IsKeyword(toks, i, AND) && !IsKeyword(toks, i, WHERE) && !IsKeyword(toks, i, SUM) && !IsKeyword(toks, i, GROUP)
  {
  }

  lemma SumsSound(toks: seq<Tok>, i: nat)
    requires i <= |toks| && ReadSums(toks, i).Some?
    ensures var (cs, j) := ReadSums(toks, i).value; ColumnsOk(cs, true) && SpellsAt(toks, i, ShowSums(cs)) && j == i + |ShowSums(cs)|
  {
    hide ReadColumns, ShowColumns, IsKeyword;
    if IsKeyword(toks, i, SUM) {
      ColumnsSound(toks, i + 1, true);
      var cs := ReadColumns(toks, i + 1, true).value.0;
      SpellsKeyword(toks, i, SUM);
      SpellsJoin(toks, i, [Word(SUM)], ShowColumns(cs));
    }
  }

  lemma SumsComplete(toks: seq<Tok>, i: nat, cs: seq<nat>)
    requires ColumnsOk(cs, true) && SpellsAt(toks, i, ShowSums(cs)) && i + |ShowSums(cs)| == |toks|
    ensures ReadSums(toks, i) == Some((cs, |toks|))
    ensures EndOr(toks, i, SUM)
  {
    hide ReadColumns, ShowColumns, IsKeyword, SpellsAt;
    NotAtEnd(toks, |toks|);
    if cs != [] {
      SpellsKeyword(toks, i, SUM);
      SpellsJoin(toks, i, [Word(SUM)], ShowColumns(cs));
      ColumnsComplete(toks, i + 1, cs, true);
    }
  }

  lemma GroupingSpelled(toks: seq<Tok>, i: nat, g: Grouping)
    ensures SpellsAt(toks, i, ShowGrouping(Some(g)))
            <==> IsKeyword(toks, i, GROUP) && IsKeyword(toks, i + 1, BY) && SpellsAt(toks, i + 2, ShowColumns(g.keys))
                 && SpellsAt(toks, i + 2 + |ShowColumns(g.keys)|, ShowSums(g.sums))
    ensures |ShowGrouping(Some(g))| == 2 + |ShowColumns(g.keys)| + |ShowSums(g.sums)|
  {
    hide ShowColumns, ShowSums, IsKeyword, SpellsAt;
    var (keys, sums) := (ShowColumns(g.keys), ShowSums(g.sums));
    assert [Word(GROUP), Word(BY)] == [Word(GROUP)] + [Word(BY)];
    SpellsJoin(toks, i, [Word(GROUP)] + [Word(BY)] + keys, sums);
    SpellsJoin(toks, i, [Word(GROUP)] + [Word(BY)], keys);
    SpellsJoin(toks, i, [Word(GROUP)], [Word(BY)]);
    SpellsKeyword(toks, i, GROUP);
    SpellsKeyword(toks, i + 1, BY);
  }

  lemma GroupingSound(toks: seq<Tok>, i: nat)
    requires i <= |toks| && ReadGrouping(toks, i).Some?
    ensures var (g, j) := ReadGrouping(toks, i).value;
            (g.Some? ==> GroupingOk(g.value)) && SpellsAt(toks, i, ShowGrouping(g)) && j == i + |ShowGrouping(g)|
  {
    hide ReadColumns, ReadSums, ShowColumns, ShowSums, IsKeyword, ColumnsOk;
    if IsKeyword(toks, i, GROUP) {
      ColumnsSound(toks, i + 2, false);
      var (keys, j) := ReadColumns(toks, i + 2, false).value;
      SumsSound(toks, j);
      var sums := ReadSums(toks, j).value.0;
      GroupingSpelled(toks, i, Grouping(keys, sums));
    }
  }

  lemma GroupingComplete(toks: seq<Tok>, i: nat, g: Option<Grouping>)
    requires (g.Some? ==> GroupingOk(g.value)) && SpellsAt(toks, i, ShowGrouping(g)) && i + |ShowGrouping(g)| == |toks|
    ensures ReadGrouping(toks, i) == Some((g, |toks|))
    ensures EndOr(toks, i, GROUP)
  {
    hide ReadColumns, ReadSums, ShowColumns, ShowSums, IsKeyword, SpellsAt;
    NotAtEnd(toks, |toks|);
    if g.Some? {
      GroupingSpelled(toks, i, g.value);
      var j := i + 2 + |ShowColumns(g.value.keys)|;
      SumsComplete(toks, j, g.value.sums);
      NoCommaHere(toks, j);
      ColumnsComplete(toks, i + 2, g.value.keys, false);
    }
  }

  lemma NoCommaHere(toks: seq<Tok>, i: nat)
    ensures EndOr(toks, i, SUM) ==> !IsComma(toks, i)
  {
  }

  /** Exactly the documented grammar: a token list parses as `q` iff `q` is well typed and the tokens spell it. */
  lemma ParseIff(toks: seq<Tok>, q: Query)
    ensures Parse(toks) == Some(q) <==> QueryOk(q) && Spells(toks, q)
  {
    if Parse(toks) == Some(q) { ParseSound(toks); }
    if QueryOk(q) && Spells(toks, q) { ParseComplete(toks, q); }
  }

  lemma ShowSpelled(toks: seq<Tok>, q: Query)
    ensures SpellsAt(toks, 0, Show(q))
            <==> IsKeyword(toks, 0, SELECT) && SpellsAt(toks, 1, ShowWhere(q.predicates)) && SpellsAt(toks, 1 + |ShowWhere(q.predicates)|, ShowGrouping(q.grouping))
  {
    hide ShowWhere, ShowGrouping, IsKeyword, SpellsAt;
    SpellsJoin(toks, 0, [Word(SELECT)] + ShowWhere(q.predicates), ShowGrouping(q.grouping));
    SpellsJoin(toks, 0, [Word(SELECT)], ShowWhere(q.predicates));
    SpellsKeyword(toks, 0, SELECT);
  }

  lemma ParseSound(toks: seq<Tok>)
    requires Parse(toks).Some?
    ensures QueryOk(Parse(toks).value) && Spells(toks, Parse(toks).value)
  {
    hide ReadWhere, ReadGrouping, ShowWhere, ShowGrouping, WellTyped, GroupingOk;
    var q := Parse(toks).value;
    WhereSound(toks, 1);
    GroupingSound(toks, ReadWhere(toks, 1).value.1);
    ShowSpelled(toks, q);
  }

  lemma ParseComplete(toks: seq<Tok>, q: Query)
    requires QueryOk(q) && Spells(toks, q)
    ensures Parse(toks) == Some(q)
  {
    hide ReadWhere, ReadGrouping, ShowWhere, ShowGrouping, IsKeyword, SpellsAt, WellTyped, GroupingOk;
    ShowSpelled(toks, q);
    var i := 1 + |ShowWhere(q.predicates)|;
    GroupingComplete(toks, i, q.grouping);
    WhereComplete(toks, 1, q.predicates);
  }
}
