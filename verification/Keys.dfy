/** Keys are byte strings in lexicographic order (the order of `Vec<u8>`).
  * `Rank` embeds that order into the reals, so that every comparison in the tree is linear arithmetic. */
module Keys {

  type Byte = b: int | 0 <= b < 256

  type Key = seq<Byte>

  type Val = seq<Byte>

  datatype Option<+T> = None | Some(value: T)

  /** The byte string read as digits of a base-257 fraction, digit 0 being reserved for "no more bytes". */
  ghost function Fraction(k: Key): (r: real)
    ensures 0.0 <= r < 1.0
    ensures k != [] ==> r > 0.0
  {
    if k == [] then 0.0 else (k[0] as real + 1.0 + Fraction(k[1..])) / 257.0
  }

  ghost predicate IsRank(k: Key, r: real) {
    0.0 <= r < 1.0 && forall j {:trigger Fraction(j)} | j == k :: r == Fraction(j)
  }

  /** `Fraction` behind a choice, so that its recursion is unfolded only where `RankIs` asks for it. */
  ghost function Rank(k: Key): (r: real)
    ensures 0.0 <= r < 1.0
  {
    assert IsRank(k, Fraction(k));
    var r :| IsRank(k, r);
    r
  }

  lemma RankIs(k: Key)
    ensures Rank(k) == Fraction(k)
  {
    assert IsRank(k, Rank(k));
  }

  /** The order that `Vec<u8>` comparison uses. */
  predicate LexLess(a: Key, b: Key) {
    if b == [] then false
    else if a == [] then true
    else if a[0] != b[0] then a[0] < b[0]
    else LexLess(a[1..], b[1..])
  }

  lemma {:induction false} RankIsLexicographic(a: Key, b: Key)
    ensures LexLess(a, b) <==> Rank(a) < Rank(b)
  {
    RankIs(a);
    RankIs(b);
    if a != [] && b != [] {
      RankIs(a[1..]);
      RankIs(b[1..]);
      RankIsLexicographic(a[1..], b[1..]);
    }
  }

  lemma {:induction false} RankInjective(a: Key, b: Key)
    requires Rank(a) == Rank(b)
    ensures a == b
  {
    RankIs(a);
    RankIs(b);
    if a != [] && b != [] {
      RankIs(a[1..]);
      RankIs(b[1..]);
      assert a[0] == b[0];
      RankInjective(a[1..], b[1..]);
      assert a == [a[0]] + a[1..] && b == [b[0]] + b[1..];
    }
  }
}
