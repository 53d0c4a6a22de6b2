/** Grouping with counts and sums, and the hash join. */
module Aggregates {
  import opened Keys
  import opened Sums
  import opened Tables

  const TWO64: nat := 0x1_0000_0000_0000_0000

  /** `u64` addition wraps around. */
  function Add64(a: nat, b: nat): nat { (a + b) % TWO64 }

  function Decimal(n: nat): Key {
    if n < 10 then [48 + n] else Decimal(n / 10) + [48 + n % 10]
  }

  /** Keys are grouped and joined by their text. */
  function CellText(c: Cell): Key {
    match c case Num(n) => Decimal(n) case Text(t) => t
  }

  lemma {:induction false} DecimalInjective(a: nat, b: nat)
    requires Decimal(a) == Decimal(b)
    ensures a == b
  {
    if a >= 10 && b >= 10 {
      var x, y := Decimal(a / 10), Decimal(b / 10);
      assert x == Decimal(a)[..|Decimal(a)| - 1] && y == Decimal(b)[..|Decimal(b)| - 1];
      assert Decimal(a)[|Decimal(a)| - 1] == 48 + a % 10 && Decimal(b)[|Decimal(b)| - 1] == 48 + b % 10;
      DecimalInjective(a / 10, b / 10);
    } else {
      DecimalLength(a);
      DecimalLength(b);
    }
  }

  lemma DecimalLength(n: nat)
    ensures |Decimal(n)| >= 1 && (n >= 10 ==> |Decimal(n)| >= 2)
  {
    if n >= 10 { assert |Decimal(n / 10)| >= 1; }
  }

  /** Two cells of one column have the same text only if they are the same cell. */
  lemma CellTextInjective(a: Cell, b: Cell, t: ColType)
    requires CellFits(a, t) && CellFits(b, t) && CellText(a) == CellText(b)
    ensures a == b
  {
    if a.Num? { DecimalInjective(a.num, b.num); }
  }

  type Group = seq<Key>

  predicate HasColumns(r: Row, cols: seq<nat>) { forall i | 0 <= i < |cols| :: cols[i] < |r| }

  function GroupOf(r: Row, keys: seq<nat>): Group
    requires HasColumns(r, keys)
  {
    if keys == [] then []
    else assert HasColumns(r, keys[..|keys| - 1]); GroupOf(r, keys[..|keys| - 1]) + [CellText(r[keys[|keys| - 1]])]
  }

  /** Numbers are summed; a text column sums to nothing. */
  function NumberAt(r: Row, a: nat): nat { if a < |r| && r[a].Num? then r[a].num else 0 }

  ghost predicate RowsHave(rows: seq<Row>, cols: seq<nat>) { forall i | 0 <= i < |rows| :: HasColumns(rows[i], cols) }

  ghost function CountOf(rows: seq<Row>, keys: seq<nat>, g: Group): nat
    requires RowsHave(rows, keys)
  {
    if rows == [] then 0
    else Add64(CountOf(rows[..|rows| - 1], keys, g), if GroupOf(rows[|rows| - 1], keys) == g then 1 else 0)
  }

  ghost function SumOf(rows: seq<Row>, keys: seq<nat>, g: Group, a: nat): nat
    requires RowsHave(rows, keys)
  {
    if rows == [] then 0
    else Add64(SumOf(rows[..|rows| - 1], keys, g, a), if GroupOf(rows[|rows| - 1], keys) == g then NumberAt(rows[|rows| - 1], a) else 0)
  }

  ghost function SumsOf(rows: seq<Row>, keys: seq<nat>, g: Group, aggs: seq<nat>): seq<nat>
    requires RowsHave(rows, keys)
  {
    if aggs == [] then [] else SumsOf(rows, keys, g, aggs[..|aggs| - 1]) + [SumOf(rows, keys, g, aggs[|aggs| - 1])]
  }

  // ---- the order of groups ----

  predicate ListLess(a: Group, b: Group) {
    if b == [] then false
    else if a == [] then true
    else if a[0] != b[0] then LexLess(a[0], b[0])
    else ListLess(a[1..], b[1..])
  }

  lemma KeyTotal(a: Key, b: Key)
    ensures a == b || LexLess(a, b) || LexLess(b, a)
    ensures !(LexLess(a, b) && LexLess(b, a)) && !LexLess(a, a)
  {
    RankIsLexicographic(a, b);
    RankIsLexicographic(b, a);
    RankIsLexicographic(a, a);
    if Rank(a) == Rank(b) { RankInjective(a, b); }
  }

  lemma {:induction false} ListTotal(a: Group, b: Group)
    ensures a == b || ListLess(a, b) || ListLess(b, a)
    ensures !(ListLess(a, b) && ListLess(b, a))
  {
    if a != [] && b != [] {
      KeyTotal(a[0], b[0]);
      if a[0] == b[0] {
        ListTotal(a[1..], b[1..]);
        assert a == [a[0]] + a[1..] && b == [b[0]] + b[1..];
      }
    }
  }

  lemma {:induction false} ListTransitive(a: Group, b: Group, c: Group)
    requires ListLess(a, b) && ListLess(b, c)
    ensures ListLess(a, c)
  {
    if a != [] {
      RankIsLexicographic(a[0], b[0]);
      RankIsLexicographic(b[0], c[0]);
      RankIsLexicographic(a[0], c[0]);
      if a[0] == b[0] == c[0] { ListTransitive(a[1..], b[1..], c[1..]); }
    }
  }

  method LeastGroup(s: set<Group>) returns (least: Group)
    requires s != {}
    ensures least in s && forall g | g in s && g != least :: ListLess(least, g)
  {
    var first :| first in s;
    least := first;
    var todo := s - {first};
    while todo != {}
      invariant todo <= s && least in s
      invariant forall g | g in s && g !in todo && g != least :: ListLess(least, g)
      decreases todo
    {
      var g :| g in todo;
      ListTotal(g, least);
      if ListLess(g, least) {
        forall h | h in s && h !in todo && h != least && h != g
          ensures ListLess(g, h)
        {
          ListTransitive(g, least, h);
        }
        least := g;
      }
      todo := todo - {g};
    }
  }

  // ---- aggregation ----

  type Groups = map<Group, (nat, seq<nat>)>

  /** Some row belongs to the group. */
  ghost predicate Occurs(rows: seq<Row>, keys: seq<nat>, g: Group)
    requires RowsHave(rows, keys)
  {
    exists i :: 0 <= i < |rows| && GroupOf(rows[i], keys) == g
  }

  ghost predicate GroupsOf(groups: Groups, rows: seq<Row>, keys: seq<nat>, aggs: seq<nat>)
    requires RowsHave(rows, keys)
  {
    && (forall g :: g in groups <==> Occurs(rows, keys, g))
    && forall g | g in groups :: groups[g] == (CountOf(rows, keys, g), SumsOf(rows, keys, g, aggs))
  }

  lemma {:induction false} SumsAt(rows: seq<Row>, keys: seq<nat>, g: Group, aggs: seq<nat>)
    requires RowsHave(rows, keys)
    ensures |SumsOf(rows, keys, g, aggs)| == |aggs|
    ensures forall i | 0 <= i < |aggs| :: SumsOf(rows, keys, g, aggs)[i] == SumOf(rows, keys, g, aggs[i])
  {
    if aggs != [] { SumsAt(rows, keys, g, aggs[..|aggs| - 1]); }
  }

  lemma SumMore(rows: seq<Row>, all: seq<Row>, r: Row, keys: seq<nat>, g: Group, a: nat)
    requires RowsHave(rows, keys) && HasColumns(r, keys) && all == rows + [r] && RowsHave(all, keys)
    ensures GroupOf(r, keys) == g ==> SumOf(all, keys, g, a) == Add64(SumOf(rows, keys, g, a), NumberAt(r, a))
    ensures GroupOf(r, keys) == g ==> CountOf(all, keys, g) == Add64(CountOf(rows, keys, g), 1)
    ensures GroupOf(r, keys) != g ==> SumOf(all, keys, g, a) == SumOf(rows, keys, g, a) && CountOf(all, keys, g) == CountOf(rows, keys, g)
  {
    hide GroupOf, HasColumns, NumberAt;
    assert all[..|all| - 1] == rows;
    if rows != [] {
      assert SumOf(rows, keys, g, a) < TWO64 && CountOf(rows, keys, g) < TWO64;
    }
  }

  lemma {:induction false} NoRowsSum(rows: seq<Row>, keys: seq<nat>, g: Group, a: nat)
    requires RowsHave(rows, keys) && forall i | 0 <= i < |rows| :: GroupOf(rows[i], keys) != g
    ensures CountOf(rows, keys, g) == 0 && SumOf(rows, keys, g, a) == 0
  {
    if rows != [] { NoRowsSum(rows[..|rows| - 1], keys, g, a); }
  }

  lemma {:induction false} NoRowsSums(rows: seq<Row>, keys: seq<nat>, g: Group, aggs: seq<nat>)
    requires RowsHave(rows, keys) && forall i | 0 <= i < |rows| :: GroupOf(rows[i], keys) != g
    ensures |SumsOf(rows, keys, g, aggs)| == |aggs| && forall i | 0 <= i < |aggs| :: SumsOf(rows, keys, g, aggs)[i] == 0
  {
    if aggs != [] {
      NoRowsSums(rows, keys, g, aggs[..|aggs| - 1]);
      NoRowsSum(rows, keys, g, aggs[|aggs| - 1]);
    }
  }

  /** The sums of one group after one more row. */
  method AddRow(sums: seq<nat>, r: Row, aggs: seq<nat>) returns (sums': seq<nat>)
    requires |sums| == |aggs|
    ensures |sums'| == |aggs| && forall i | 0 <= i < |aggs| :: sums'[i] == Add64(sums[i], NumberAt(r, aggs[i]))
  {
    sums' := [];
    var i := 0;
    while i < |aggs|
      invariant 0 <= i <= |aggs| && |sums'| == i && forall j | 0 <= j < i :: sums'[j] == Add64(sums[j], NumberAt(r, aggs[j]))
    {
      sums' := sums' + [Add64(sums[i], NumberAt(r, aggs[i]))];
      i := i + 1;
    }
  }

  function Zeros(n: nat): (z: seq<nat>)
    ensures |z| == n && forall i | 0 <= i < n :: z[i] == 0
  {
    if n == 0 then [] else Zeros(n - 1) + [0]
  }

  /** A group that the new row joins. */
  lemma GroupJoined(rows: seq<Row>, all: seq<Row>, r: Row, keys: seq<nat>, aggs: seq<nat>, old_: (nat, seq<nat>), new_: (nat, seq<nat>))
    requires RowsHave(rows, keys) && HasColumns(r, keys) && all == rows + [r] && RowsHave(all, keys) && |new_.1| == |aggs|
    requires old_ == (CountOf(rows, keys, GroupOf(r, keys)), SumsOf(rows, keys, GroupOf(r, keys), aggs)) && |old_.1| == |aggs|
    requires new_.0 == Add64(old_.0, 1) && forall i | 0 <= i < |aggs| :: new_.1[i] == Add64(old_.1[i], NumberAt(r, aggs[i]))
    ensures new_ == (CountOf(all, keys, GroupOf(r, keys)), SumsOf(all, keys, GroupOf(r, keys), aggs))
  {
    var g := GroupOf(r, keys);
    SumsAt(rows, keys, g, aggs);
    SumsAt(all, keys, g, aggs);
    SumMore(rows, all, r, keys, g, 0);
    hide SumsOf, SumOf, CountOf, GroupOf, Add64, NumberAt;
    var sums := SumsOf(all, keys, g, aggs);
    forall i | 0 <= i < |aggs|
      ensures new_.1[i] == sums[i]
    {
      SumMore(rows, all, r, keys, g, aggs[i]);
    }
    assert new_.1 == sums;
  }

  /** A group that the new row does not join. */
  lemma GroupStays(rows: seq<Row>, all: seq<Row>, r: Row, keys: seq<nat>, aggs: seq<nat>, g: Group)
    requires RowsHave(rows, keys) && HasColumns(r, keys) && all == rows + [r] && RowsHave(all, keys) && GroupOf(r, keys) != g
    ensures CountOf(all, keys, g) == CountOf(rows, keys, g) && SumsOf(all, keys, g, aggs) == SumsOf(rows, keys, g, aggs)
  {
    SumsAt(rows, keys, g, aggs);
    SumsAt(all, keys, g, aggs);
    SumMore(rows, all, r, keys, g, 0);
    hide SumsOf, SumOf, CountOf, GroupOf;
    var a, b := SumsOf(all, keys, g, aggs), SumsOf(rows, keys, g, aggs);
    forall i | 0 <= i < |aggs|
      ensures a[i] == b[i]
    {
      SumMore(rows, all, r, keys, g, aggs[i]);
    }
    assert a == b;
  }

  lemma NewGroup(groups: Groups, rows: seq<Row>, keys: seq<nat>, aggs: seq<nat>, g: Group)
    requires RowsHave(rows, keys) && GroupsOf(groups, rows, keys, aggs) && g !in groups
    ensures CountOf(rows, keys, g) == 0 && SumsOf(rows, keys, g, aggs) == Zeros(|aggs|)
  {
    NoRowsSums(rows, keys, g, aggs);
    NoRowsSum(rows, keys, g, 0);
  }

  /** What the loop finds for a group before it adds a row. */
  lemma EntryIs(groups: Groups, rows: seq<Row>, keys: seq<nat>, aggs: seq<nat>, g: Group)
    requires RowsHave(rows, keys) && GroupsOf(groups, rows, keys, aggs)
    ensures (if g in groups then groups[g] else (0, Zeros(|aggs|))) == (CountOf(rows, keys, g), SumsOf(rows, keys, g, aggs))
    ensures |SumsOf(rows, keys, g, aggs)| == |aggs|
  {
    SumsAt(rows, keys, g, aggs);
    if g !in groups { NewGroup(groups, rows, keys, aggs, g); }
  }

  lemma GroupsMore(groups: Groups, rows: seq<Row>, all: seq<Row>, r: Row, keys: seq<nat>, aggs: seq<nat>, old_: (nat, seq<nat>), new_: (nat, seq<nat>))
    requires RowsHave(rows, keys) && HasColumns(r, keys) && GroupsOf(groups, rows, keys, aggs) && all == rows + [r] && RowsHave(all, keys)
    requires old_ == (CountOf(rows, keys, GroupOf(r, keys)), SumsOf(rows, keys, GroupOf(r, keys), aggs)) && |old_.1| == |aggs|
    requires |new_.1| == |aggs| && new_.0 == Add64(old_.0, 1)
    requires forall i | 0 <= i < |aggs| :: new_.1[i] == Add64(old_.1[i], NumberAt(r, aggs[i]))
    ensures GroupsOf(groups[GroupOf(r, keys) := new_], all, keys, aggs)
  {
    hide SumsOf, SumOf, CountOf, Zeros, Occurs, Add64, NumberAt;
    GroupJoined(rows, all, r, keys, aggs, old_, new_);
    var k := GroupOf(r, keys);
    hide GroupOf;
    forall g | g in groups && g != k
      ensures groups[g] == (CountOf(all, keys, g), SumsOf(all, keys, g, aggs))
    {
      GroupStays(rows, all, r, keys, aggs, g);
    }
    forall g
      ensures Occurs(all, keys, g) <==> Occurs(rows, keys, g) || g == k
    {
      OccursMore(rows, all, r, keys, g);
    }
  }

  lemma OccursMore(rows: seq<Row>, all: seq<Row>, r: Row, keys: seq<nat>, g: Group)
    requires RowsHave(rows, keys) && HasColumns(r, keys) && all == rows + [r] && RowsHave(all, keys)
    ensures Occurs(all, keys, g) <==> Occurs(rows, keys, g) || g == GroupOf(r, keys)
  {
    assert all[|rows|] == r && forall i | 0 <= i < |rows| :: all[i] == rows[i];
  }

  /** One output row: the key texts, the count, the sums. */
  function OutRow(g: Group, s: (nat, seq<nat>)): Row { Texts(g) + [Num(s.0)] + Nums(s.1) }

  function Texts(g: Group): Row { if g == [] then [] else Texts(g[..|g| - 1]) + [Text(g[|g| - 1])] }

  function Nums(s: seq<nat>): Row { if s == [] then [] else Nums(s[..|s| - 1]) + [Num(s[|s| - 1])] }

  ghost predicate StrictlyUp(gs: seq<Group>) { forall i, j | 0 <= i < j < |gs| :: ListLess(gs[i], gs[j]) }

  /** The relational meaning: one row per group of the input, groups strictly ascending, exact counts and sums. */
  ghost predicate Aggregates(out: seq<Row>, gs: seq<Group>, rows: seq<Row>, keys: seq<nat>, aggs: seq<nat>)
    requires RowsHave(rows, keys)
  {
    && StrictlyUp(gs) && |out| == |gs|
    && (forall g :: g in gs <==> Occurs(rows, keys, g))
    && forall i | 0 <= i < |gs| :: out[i] == OutRow(gs[i], (CountOf(rows, keys, gs[i]), SumsOf(rows, keys, gs[i], aggs)))
  }

  // ---- what the output rows show ----

  /** The row has these texts in the key columns; a number is written in decimal. */
  ghost predicate InGroup(r: Row, keys: seq<nat>, g: Group) {
    |g| == |keys| && forall j | 0 <= j < |keys| :: keys[j] < |r| && g[j] == match r[keys[j]] case Num(n) => Decimal(n) case Text(t) => t
  }

  /** Group by group: the first text that differs decides, and what ends first comes first. */
  ghost predicate Before(a: Group, b: Group) {
    exists p | 0 <= p <= |a| && p <= |b| :: a[..p] == b[..p] && p < |b| && (p < |a| ==> Rank(a[p]) < Rank(b[p]))
  }

  ghost function MembersOf(rows: seq<Row>, keys: seq<nat>, g: Group): set<nat> {
    set i | 0 <= i < |rows| && InGroup(rows[i], keys, g)
  }

  /** The numbers of a column in the rows of a group. */
  ghost function NumbersOf(rows: seq<Row>, keys: seq<nat>, g: Group, a: nat): map<nat, nat> {
    map i | 0 <= i < |rows| && InGroup(rows[i], keys, g) && a < |rows[i]| && rows[i][a].Num? :: rows[i][a].num
  }

  ghost predicate ShowsGroup(r: Row, g: Group, rows: seq<Row>, keys: seq<nat>, aggs: seq<nat>) {
    && |r| == |keys| + 1 + |aggs| && |g| == |keys| && (forall j | 0 <= j < |keys| :: r[j] == Text(g[j]))
    && r[|keys|] == Num(|MembersOf(rows, keys, g)| % 0x1_0000_0000_0000_0000)
    && forall j | 0 <= j < |aggs| :: r[|keys| + 1 + j] == Num(Sum(NumbersOf(rows, keys, g, aggs[j])) % 0x1_0000_0000_0000_0000)
  }

  /** One row for each group that some row is in, in ascending order: its texts, the number of its rows, and the sum of each
    * column, in 64 bits. */
  ghost predicate Described(out: seq<Row>, gs: seq<Group>, rows: seq<Row>, keys: seq<nat>, aggs: seq<nat>) {
    && |out| == |gs| && (forall i, j | 0 <= i < j < |gs| :: Before(gs[i], gs[j]))
    && (forall g :: g in gs <==> exists i :: 0 <= i < |rows| && InGroup(rows[i], keys, g))
    && forall i | 0 <= i < |gs| :: ShowsGroup(out[i], gs[i], rows, keys, aggs)
  }

  lemma {:induction false} GroupTexts(r: Row, keys: seq<nat>)
    requires HasColumns(r, keys)
    ensures |GroupOf(r, keys)| == |keys| && forall j | 0 <= j < |keys| :: GroupOf(r, keys)[j] == CellText(r[keys[j]])
  {
    if keys != [] {
      assert HasColumns(r, keys[..|keys| - 1]);
      GroupTexts(r, keys[..|keys| - 1]);
    }
  }

  lemma InGroupIs(r: Row, keys: seq<nat>, g: Group)
    requires HasColumns(r, keys)
    ensures InGroup(r, keys, g) <==> GroupOf(r, keys) == g
  {
    GroupTexts(r, keys);
    hide GroupOf, Decimal;
    if InGroup(r, keys, g) { assert forall j | 0 <= j < |keys| :: g[j] == CellText(r[keys[j]]); }
  }

  lemma Wrapped(x: nat, y: nat)
    ensures Add64(x % TWO64, y) == (x + y) % TWO64
  {
  }

  lemma CountStep(rows: seq<Row>, keys: seq<nat>, g: Group)
    requires rows != [] && RowsHave(rows, keys)
    ensures var n := |rows| - 1;
      && RowsHave(rows[..n], keys)
      && CountOf(rows, keys, g) == Add64(CountOf(rows[..n], keys, g), if InGroup(rows[n], keys, g) then 1 else 0)
      && |MembersOf(rows, keys, g)| == |MembersOf(rows[..n], keys, g)| + if InGroup(rows[n], keys, g) then 1 else 0
  {
    var n := |rows| - 1;
    InGroupIs(rows[n], keys, g);
    hide InGroup, GroupOf, Add64;
    var front := MembersOf(rows[..n], keys, g);
    assert n !in front;
    assert MembersOf(rows, keys, g) == if InGroup(rows[n], keys, g) then front + {n} else front;
  }

  lemma {:induction false} CountMeans(rows: seq<Row>, keys: seq<nat>, g: Group)
    requires RowsHave(rows, keys)
    ensures CountOf(rows, keys, g) == |MembersOf(rows, keys, g)| % TWO64
  {
    if rows == [] {
      assert MembersOf(rows, keys, g) == {};
    } else {
      hide *;
      var n := |rows| - 1;
      CountStep(rows, keys, g);
      CountMeans(rows[..n], keys, g);
      Wrapped(|MembersOf(rows[..n], keys, g)|, 1);
      Wrapped(|MembersOf(rows[..n], keys, g)|, 0);
    }
  }

  lemma NumbersMore(rows: seq<Row>, keys: seq<nat>, g: Group, a: nat)
    requires rows != []
    ensures var n := |rows| - 1;
      NumbersOf(rows, keys, g, a) == (if InGroup(rows[n], keys, g) && a < |rows[n]| && rows[n][a].Num?
                                      then NumbersOf(rows[..n], keys, g, a)[n := rows[n][a].num] else NumbersOf(rows[..n], keys, g, a))
    ensures |rows| - 1 !in NumbersOf(rows[..|rows| - 1], keys, g, a)
  {
    hide InGroup;
  }

  lemma SumStep(rows: seq<Row>, keys: seq<nat>, g: Group, a: nat)
    requires rows != []
    ensures var n := |rows| - 1;
      Sum(NumbersOf(rows, keys, g, a)) == Sum(NumbersOf(rows[..n], keys, g, a)) + if InGroup(rows[n], keys, g) then NumberAt(rows[n], a) else 0
  {
    var n: nat := |rows| - 1;
    NumbersMore(rows, keys, g, a);
    hide InGroup, Sum, NumbersOf;
    var front := NumbersOf(rows[..n], keys, g, a);
    if InGroup(rows[n], keys, g) && a < |rows[n]| && rows[n][a].Num? {
      assert front - {n} == front;
      SumPut(front, n, rows[n][a].num);
    }
  }

  lemma SumOfStep(rows: seq<Row>, keys: seq<nat>, g: Group, a: nat)
    requires rows != [] && RowsHave(rows, keys)
    ensures var n := |rows| - 1;
      && RowsHave(rows[..n], keys)
      && SumOf(rows, keys, g, a) == Add64(SumOf(rows[..n], keys, g, a), if InGroup(rows[n], keys, g) then NumberAt(rows[n], a) else 0)
  {
    InGroupIs(rows[|rows| - 1], keys, g);
    hide InGroup, GroupOf, Add64;
  }

  lemma NothingSummed(keys: seq<nat>, g: Group, a: nat)
    ensures Sum(NumbersOf([], keys, g, a)) == 0
  {
    assert NumbersOf([], keys, g, a) == map[];
  }

  lemma {:induction false} SumMeans(rows: seq<Row>, keys: seq<nat>, g: Group, a: nat)
    requires RowsHave(rows, keys)
    ensures SumOf(rows, keys, g, a) == Sum(NumbersOf(rows, keys, g, a)) % TWO64
  {
    if rows == [] {
      hide NumbersOf, Sum;
      NothingSummed(keys, g, a);
    } else {
      hide *;
      var n := |rows| - 1;
      SumStep(rows, keys, g, a);
      SumOfStep(rows, keys, g, a);
      SumMeans(rows[..n], keys, g, a);
      Wrapped(Sum(NumbersOf(rows[..n], keys, g, a)), if InGroup(rows[n], keys, g) then NumberAt(rows[n], a) else 0);
    }
  }

  lemma {:induction false} TextsAt(g: Group)
    ensures |Texts(g)| == |g| && forall j | 0 <= j < |g| :: Texts(g)[j] == Text(g[j])
  {
    if g != [] { TextsAt(g[..|g| - 1]); }
  }

  lemma {:induction false} NumsAt(s: seq<nat>)
    ensures |Nums(s)| == |s| && forall j | 0 <= j < |s| :: Nums(s)[j] == Num(s[j])
  {
    if s != [] { NumsAt(s[..|s| - 1]); }
  }

  lemma {:induction false} LessIsBefore(a: Group, b: Group)
    requires ListLess(a, b)
    ensures Before(a, b)
  {
    hide LexLess;
    if a == [] {
      assert a[..0] == b[..0];
    } else if a[0] != b[0] {
      RankIsLexicographic(a[0], b[0]);
      assert a[..0] == b[..0];
    } else {
      LessIsBefore(a[1..], b[1..]);
      var p :| 0 <= p <= |a[1..]| && p <= |b[1..]| && a[1..][..p] == b[1..][..p] && p < |b[1..]| && (p < |a[1..]| ==> Rank(a[1..][p]) < Rank(b[1..][p]));
      assert a[..p + 1] == [a[0]] + a[1..][..p] && b[..p + 1] == [b[0]] + b[1..][..p];
    }
  }

  lemma OutRowAt(g: Group, count: nat, sums: seq<nat>)
    ensures var r := OutRow(g, (count, sums));
      && |r| == |g| + 1 + |sums| && (forall j | 0 <= j < |g| :: r[j] == Text(g[j])) && r[|g|] == Num(count)
      && forall j | 0 <= j < |sums| :: r[|g| + 1 + j] == Num(sums[j])
  {
    TextsAt(g);
    NumsAt(sums);
    hide Texts, Nums;
    assert forall j | 0 <= j < |sums| :: OutRow(g, (count, sums))[|g| + 1 + j] == Nums(sums)[j];
  }

  lemma RowShows(r: Row, g: Group, rows: seq<Row>, keys: seq<nat>, aggs: seq<nat>)
    requires RowsHave(rows, keys) && |g| == |keys| && r == OutRow(g, (CountOf(rows, keys, g), SumsOf(rows, keys, g, aggs)))
    ensures ShowsGroup(r, g, rows, keys, aggs)
  {
    var sums := SumsOf(rows, keys, g, aggs);
    SumsAt(rows, keys, g, aggs);
    CountMeans(rows, keys, g);
    hide CountOf, SumOf, SumsOf, OutRow, MembersOf, NumbersOf, Sum, RowsHave;
    OutRowAt(g, CountOf(rows, keys, g), sums);
    forall j | 0 <= j < |aggs|
      ensures r[|keys| + 1 + j] == Num(Sum(NumbersOf(rows, keys, g, aggs[j])) % 0x1_0000_0000_0000_0000)
    {
      SumMeans(rows, keys, g, aggs[j]);
    }
  }

  /** The relational meaning in terms of the cells themselves. */
  lemma AggregatesShow(out: seq<Row>, gs: seq<Group>, rows: seq<Row>, keys: seq<nat>, aggs: seq<nat>)
    requires RowsHave(rows, keys) && Aggregates(out, gs, rows, keys, aggs)
    ensures Described(out, gs, rows, keys, aggs)
  {
    hide CountOf, SumsOf, OutRow, ShowsGroup, ListLess, Before, GroupOf, InGroup;
    forall i | 0 <= i < |rows|, g
      ensures InGroup(rows[i], keys, g) <==> GroupOf(rows[i], keys) == g
    {
      InGroupIs(rows[i], keys, g);
    }
    forall i, j | 0 <= i < j < |gs|
      ensures Before(gs[i], gs[j])
    {
      LessIsBefore(gs[i], gs[j]);
    }
    forall i | 0 <= i < |gs|
      ensures ShowsGroup(out[i], gs[i], rows, keys, aggs)
    {
      assert gs[i] in gs;
      var k :| 0 <= k < |rows| && GroupOf(rows[k], keys) == gs[i];
      GroupTexts(rows[k], keys);
      RowShows(out[i], gs[i], rows, keys, aggs);
    }
  }

  /** Collects the groups of all rows. */
  method Collect(rows: seq<Row>, keys: seq<nat>, aggs: seq<nat>) returns (ok: bool, groups: Groups)
    ensures ok <==> RowsHave(rows, keys)
    ensures ok ==> GroupsOf(groups, rows, keys, aggs)
  {
    groups, ok := map[], true;
    var i := 0;
    while i < |rows|
      invariant 0 <= i <= |rows| && RowsHave(rows[..i], keys) && GroupsOf(groups, rows[..i], keys, aggs)
    {
      var r := rows[i];
      if !HasColumns(r, keys) { return false, groups; }
      assert rows[..i + 1] == rows[..i] + [r];
      var k := GroupOf(r, keys);
      var entry := if k in groups then groups[k] else (0, Zeros(|aggs|));
      EntryIs(groups, rows[..i], keys, aggs, k);
      var sums := AddRow(entry.1, r, aggs);
      GroupsMore(groups, rows[..i], rows[..i + 1], r, keys, aggs, entry, (Add64(entry.0, 1), sums));
      groups := groups[k := (Add64(entry.0, 1), sums)];
      i := i + 1;
    }
    assert rows[..i] == rows;
  }

  /** Pipeline breaker: consumes all rows and emits the groups in order. */
  method RunAggregate(rows: seq<Row>, keys: seq<nat>, aggs: seq<nat>) returns (r: Result<seq<Row>>, ghost gs: seq<Group>)
    ensures r.Ok? <==> RowsHave(rows, keys)
    ensures r.Ok? ==> Aggregates(r.value, gs, rows, keys, aggs) && Described(r.value, gs, rows, keys, aggs)
  {
    gs := [];
    var ok, groups := Collect(rows, keys, aggs);
    if !ok { return Err, gs; }
    var out: seq<Row> := [];
    var todo := groups.Keys;
    while todo != {}
      invariant todo <= groups.Keys && StrictlyUp(gs) && |out| == |gs|
      invariant forall g :: g in gs <==> g in groups.Keys - todo
      invariant forall g, h | g in gs && h in todo :: ListLess(g, h)
      invariant forall i | 0 <= i < |gs| :: out[i] == OutRow(gs[i], (CountOf(rows, keys, gs[i]), SumsOf(rows, keys, gs[i], aggs)))
      decreases todo
    {
      var g := LeastGroup(todo);
      forall i | 0 <= i < |gs|
        ensures ListLess(gs[i], g)
      {
        assert gs[i] in gs;
      }
      out, gs, todo := out + [OutRow(g, groups[g])], gs + [g], todo - {g};
    }
    AggregatesShow(out, gs, rows, keys, aggs);
    r := Ok(out);
  }

  /** The meaning pins the output down: two outputs for the same input are equal. */
  lemma AggregatesUnique(out: seq<Row>, gs: seq<Group>, out': seq<Row>, gs': seq<Group>, rows: seq<Row>, keys: seq<nat>, aggs: seq<nat>)
    requires RowsHave(rows, keys) && Aggregates(out, gs, rows, keys, aggs) && Aggregates(out', gs', rows, keys, aggs)
    ensures out == out'
  {
    assert forall g :: g in gs <==> g in gs';
    AscendingUnique(gs, gs');
  }

  lemma HasMember(s: seq<Group>)
    ensures s != [] ==> exists g :: g in s
  {
    if s != [] { assert s[0] in s; }
  }

  lemma {:induction false} AscendingUnique(a: seq<Group>, b: seq<Group>)
    requires StrictlyUp(a) && StrictlyUp(b) && forall g :: g in a <==> g in b
    ensures a == b
  {
    if a == [] {
      HasMember(b);
    } else {
      assert a[0] in b;
      var j :| 0 <= j < |b| && b[j] == a[0];
      assert b[0] in a;
      var i :| 0 <= i < |a| && a[i] == b[0];
      if i > 0 && j > 0 { ListTotal(a[0], b[0]); }
      ListTotal(a[0], a[0]);
      RestSame(a, b);
      AscendingUnique(a[1..], b[1..]);
      assert a == [a[0]] + a[1..] && b == [b[0]] + b[1..];
    }
  }

  lemma RestSame(a: seq<Group>, b: seq<Group>)
    requires StrictlyUp(a) && StrictlyUp(b) && a != [] && b != [] && a[0] == b[0] && forall g :: g in a <==> g in b
    ensures forall g :: g in a[1..] <==> g in b[1..]
  {
    forall g
      ensures g in a[1..] <==> g in b[1..]
    {
      ListTotal(g, g);
      if g in a[1..] {
        var i :| 0 <= i < |a[1..]| && a[1..][i] == g;
        assert a[i + 1] == g && g in a && g in b;
        var j :| 0 <= j < |b| && b[j] == g;
        assert j > 0 ==> b[1..][j - 1] == g;
      }
      if g in b[1..] {
        var i :| 0 <= i < |b[1..]| && b[1..][i] == g;
        assert b[i + 1] == g && g in b && g in a;
        var j :| 0 <= j < |a| && a[j] == g;
        assert j > 0 ==> a[1..][j - 1] == g;
      }
    }
  }

  // ---- the aggregate as a function of the rows ----

  lemma {:induction false} LeastExists(s: set<Group>)
    requires s != {}
    ensures exists g :: IsLeast(s, g)
    decreases |s|
  {
    var g :| g in s;
    if s == {g} {
      assert IsLeast(s, g);
    } else {
      LeastExists(s - {g});
      var h :| IsLeast(s - {g}, h);
      ListTotal(g, h);
      if ListLess(g, h) {
        forall x | x in s && x != g
          ensures ListLess(g, x)
        {
          if x != h { ListTransitive(g, h, x); }
        }
        assert IsLeast(s, g);
      } else {
        assert IsLeast(s, h);
      }
    }
  }

  ghost predicate IsLeast(s: set<Group>, g: Group) { g in s && forall h | h in s && h != g :: ListLess(g, h) }

  ghost function Ordered(s: set<Group>): seq<Group>
    decreases |s|
  {
    if s == {} then [] else
      var g := LeastOf(s);
      [g] + Ordered(s - {g})
  }

  ghost function LeastOf(s: set<Group>): (g: Group)
    requires s != {}
    ensures IsLeast(s, g)
  {
    LeastExists(s);
    var g :| IsLeast(s, g);
    g
  }

  lemma {:induction false} OrderedIs(s: set<Group>)
    ensures StrictlyUp(Ordered(s)) && forall g :: g in Ordered(s) <==> g in s
    decreases |s|
  {
    if s != {} {
      var g := LeastOf(s);
      OrderedIs(s - {g});
      var rest := Ordered(s - {g});
      forall j | 0 <= j < |rest|
        ensures ListLess(g, rest[j])
      {
        assert rest[j] in rest;
      }
    }
  }

  ghost function GroupSet(rows: seq<Row>, keys: seq<nat>): set<Group>
    requires RowsHave(rows, keys)
  {
    set i | 0 <= i < |rows| :: GroupOf(rows[i], keys)
  }

  ghost function OutRows(gs: seq<Group>, rows: seq<Row>, keys: seq<nat>, aggs: seq<nat>): seq<Row>
    requires RowsHave(rows, keys)
  {
    if gs == [] then []
    else OutRows(gs[..|gs| - 1], rows, keys, aggs)
         + [OutRow(gs[|gs| - 1], (CountOf(rows, keys, gs[|gs| - 1]), SumsOf(rows, keys, gs[|gs| - 1], aggs)))]
  }

  /** The reference: group, order, count and sum. */
  ghost function AggregateRows(rows: seq<Row>, keys: seq<nat>, aggs: seq<nat>): Result<seq<Row>> {
    if RowsHave(rows, keys) then Ok(OutRows(Ordered(GroupSet(rows, keys)), rows, keys, aggs)) else Err
  }

  lemma {:induction false} OutRowsAt(gs: seq<Group>, rows: seq<Row>, keys: seq<nat>, aggs: seq<nat>)
    requires RowsHave(rows, keys)
    ensures |OutRows(gs, rows, keys, aggs)| == |gs|
    ensures forall i | 0 <= i < |gs| :: OutRows(gs, rows, keys, aggs)[i] == OutRow(gs[i], (CountOf(rows, keys, gs[i]), SumsOf(rows, keys, gs[i], aggs)))
  {
    if gs != [] { OutRowsAt(gs[..|gs| - 1], rows, keys, aggs); }
  }

  /** Any output with the relational meaning is the reference. */
  lemma AggregatesAre(out: seq<Row>, gs: seq<Group>, rows: seq<Row>, keys: seq<nat>, aggs: seq<nat>)
    requires RowsHave(rows, keys) && Aggregates(out, gs, rows, keys, aggs)
    ensures AggregateRows(rows, keys, aggs) == Ok(out)
  {
    var all := Ordered(GroupSet(rows, keys));
    OrderedIs(GroupSet(rows, keys));
    OutRowsAt(all, rows, keys, aggs);
    forall g
      ensures g in all <==> Occurs(rows, keys, g)
    {
      if g in GroupSet(rows, keys) {
        var i :| 0 <= i < |rows| && GroupOf(rows[i], keys) == g;
      }
    }
    AggregatesUnique(out, gs, OutRows(all, rows, keys, aggs), all, rows, keys, aggs);
  }

  /** What the reference shows for rows that have the key columns. */
  lemma ReferenceShows(rows: seq<Row>, keys: seq<nat>, aggs: seq<nat>)
    requires AggregateRows(rows, keys, aggs).Ok?
    ensures exists gs :: Described(AggregateRows(rows, keys, aggs).value, gs, rows, keys, aggs)
  {
    var all := Ordered(GroupSet(rows, keys));
    OrderedIs(GroupSet(rows, keys));
    OutRowsAt(all, rows, keys, aggs);
    forall g
      ensures g in all <==> Occurs(rows, keys, g)
    {
      if g in GroupSet(rows, keys) {
        var i :| 0 <= i < |rows| && GroupOf(rows[i], keys) == g;
      }
    }
    AggregatesShow(OutRows(all, rows, keys, aggs), all, rows, keys, aggs);
  }
}
