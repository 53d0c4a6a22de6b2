/** The two-ended layout of a node page: slots grow upwards from byte 101, payload grows downwards from byte 4064, and
  * slots refer to payload by offset and length. */
module PageLayout {
  import opened Keys

  const PAGE_SIZE: nat := 4096

  const SLOTS_START: nat := 101

  const PAYLOAD_MAX: nat := 4064

  function Pow256(n: nat): (r: nat)
    ensures r > 0
  {
    if n == 0 then 1 else 256 * Pow256(n - 1)
  }

  /** The `n` low bytes of `x`, least significant first, as a narrowing cast and `to_le_bytes` give them. */
  function Le(x: nat, n: nat): (r: seq<Byte>)
    ensures |r| == n
  {
    if n == 0 then [] else [x % 256] + Le(x / 256, n - 1)
  }

  function UnLe(s: seq<Byte>): nat {
    if s == [] then 0 else s[0] + 256 * UnLe(s[1..])
  }

  lemma {:induction false} LeBack(x: nat, n: nat)
    requires x < Pow256(n)
    ensures UnLe(Le(x, n)) == x
  {
    if n > 0 {
      LeBack(x / 256, n - 1);
      assert Le(x, n)[1..] == Le(x / 256, n - 1);
    }
  }

  /** What the serializer writes next: bytes in the slot area, or payload with a reference to it in the slot area. */
  datatype Item = Fixed(bytes: seq<Byte>) | Ref(payload: seq<Byte>)

  datatype Area = Area(head: seq<Byte>, tail: seq<Byte>)

  function Offset(size: nat): nat { if size <= PAYLOAD_MAX then PAYLOAD_MAX - size else 0 }

  ghost function Put(a: Area, it: Item): Area {
    match it
    case Fixed(b) => Area(a.head + b, a.tail)
    case Ref(p) => Area(a.head + Le(Offset(|p| + |a.tail|), 2) + Le(|p|, 2), p + a.tail)
  }

  /** Both ends after the items are written, `t0` being the payload written before them. */
  ghost function Emit(t0: seq<Byte>, items: seq<Item>): Area {
    if items == [] then Area([], t0) else Put(Emit(t0, items[..|items| - 1]), items[|items| - 1])
  }

  lemma EmitNext(t0: seq<Byte>, items: seq<Item>, it: Item)
    ensures Emit(t0, items + [it]) == Put(Emit(t0, items), it)
  {
    assert (items + [it])[..|items|] == items;
  }

  ghost predicate EndsWith(s: seq<Byte>, t: seq<Byte>) {
    |t| <= |s| && s[|s| - |t|..] == t
  }

  /** Writing more keeps what was written. */
  lemma {:induction false} EmitMore(t0: seq<Byte>, pre: seq<Item>, all: seq<Item>)
    requires pre <= all
    ensures Emit(t0, pre).head <= Emit(t0, all).head && EndsWith(Emit(t0, all).tail, Emit(t0, pre).tail)
    decreases |all|
  {
    if pre == all {
    } else {
      var rest := all[..|all| - 1];
      EmitMore(t0, pre, rest);
      var a, b := Emit(t0, rest), Emit(t0, all);
      assert b == Put(a, all[|all| - 1]);
      assert a.head <= b.head;
      assert EndsWith(b.tail, a.tail);
      EndsTrans(b.tail, a.tail, Emit(t0, pre).tail);
    }
  }

  lemma EndsTrans(a: seq<Byte>, b: seq<Byte>, c: seq<Byte>)
    requires EndsWith(a, b) && EndsWith(b, c)
    ensures EndsWith(a, c)
  {
    assert a[|a| - |c|..] == a[|a| - |b|..][|b| - |c|..];
  }

  /** The bytes `s` stand at `pos`. */
  ghost predicate At(data: seq<Byte>, pos: nat, s: seq<Byte>) {
    pos + |s| <= |data| && data[pos..pos + |s|] == s
  }

  lemma AtPart(data: seq<Byte>, pos: nat, s: seq<Byte>, a: seq<Byte>, x: seq<Byte>, b: seq<Byte>)
    requires At(data, pos, s) && s == a + x + b
    ensures At(data, pos + |a|, x)
  {
    var y := data[pos + |a|..pos + |a| + |x|];
    forall j | 0 <= j < |x|
      ensures y[j] == x[j]
    {
      assert s[|a| + j] == data[pos..pos + |s|][|a| + j];
    }
    assert y == x;
  }

  /** A page body whose two ends are these, without overlap. */
  ghost predicate Carries(data: seq<Byte>, a: Area) {
    && |data| == PAYLOAD_MAX && SLOTS_START + |a.head| + |a.tail| <= PAYLOAD_MAX
    && At(data, SLOTS_START, a.head) && At(data, PAYLOAD_MAX - |a.tail|, a.tail)
  }

  function ReadLe(data: seq<Byte>, pos: nat, n: nat): Option<nat> {
    if pos + n <= |data| then Some(UnLe(data[pos..pos + n])) else None
  }

  function Slice(data: seq<Byte>, start: nat, len: nat): Option<seq<Byte>> {
    if start + len <= |data| then Some(data[start..start + len]) else None
  }

  /** Where the slot area stands after some items. */
  ghost function Pos(t0: seq<Byte>, items: seq<Item>): nat { SLOTS_START + |Emit(t0, items).head| }

  lemma CarriesLess(data: seq<Byte>, a: Area, b: Area)
    requires Carries(data, b) && a.head <= b.head && EndsWith(b.tail, a.tail)
    ensures Carries(data, a)
  {
    AtPart(data, SLOTS_START, b.head, [], a.head, b.head[|a.head|..]);
    AtPart(data, PAYLOAD_MAX - |b.tail|, b.tail, b.tail[..|b.tail| - |a.tail|], a.tail, []);
  }

  lemma CarriesPrefix(data: seq<Byte>, t0: seq<Byte>, pre: seq<Item>, all: seq<Item>)
    requires Carries(data, Emit(t0, all)) && pre <= all
    ensures Carries(data, Emit(t0, pre))
  {
    EmitMore(t0, pre, all);
    CarriesLess(data, Emit(t0, pre), Emit(t0, all));
  }

  lemma ReadFixed(data: seq<Byte>, t0: seq<Byte>, pre: seq<Item>, b: seq<Byte>, all: seq<Item>)
    requires Carries(data, Emit(t0, all)) && pre + [Fixed(b)] <= all
    ensures Pos(t0, pre + [Fixed(b)]) == Pos(t0, pre) + |b| <= PAYLOAD_MAX && |data| == PAYLOAD_MAX
    ensures At(data, Pos(t0, pre), b)
  {
    EmitNext(t0, pre, Fixed(b));
    CarriesPrefix(data, t0, pre + [Fixed(b)], all);
    var a := Emit(t0, pre);
    AtPart(data, SLOTS_START, a.head + b, a.head, b, []);
  }

  lemma LeTwo(x: nat)
    requires x <= PAYLOAD_MAX
    ensures UnLe(Le(x, 2)) == x
  {
    assert Pow256(1) == 256 && Pow256(2) == 65536;
    LeBack(x, 2);
  }

  lemma RefParts(data: seq<Byte>, a: Area, p: seq<Byte>, x: seq<Byte>, y: seq<Byte>)
    requires Carries(data, Area(a.head + x + y, p + a.tail))
    ensures At(data, SLOTS_START + |a.head|, x) && At(data, SLOTS_START + |a.head| + |x|, y)
    ensures PAYLOAD_MAX - |p + a.tail| >= 0 && At(data, PAYLOAD_MAX - |p + a.tail|, p)
  {
    AtPart(data, SLOTS_START, a.head + x + y, a.head, x, y);
    AtPart(data, SLOTS_START, a.head + x + y, a.head + x, y, []);
    AtPart(data, PAYLOAD_MAX - |p + a.tail|, p + a.tail, [], p, a.tail);
  }

  lemma RefReads(data: seq<Byte>, pos: nat, off: nat, n: nat)
    requires At(data, pos, Le(off, 2)) && At(data, pos + 2, Le(n, 2)) && off <= PAYLOAD_MAX && n <= PAYLOAD_MAX
    ensures ReadLe(data, pos, 2) == Some(off) && ReadLe(data, pos + 2, 2) == Some(n)
  {
    LeTwo(off);
    LeTwo(n);
    hide Le, UnLe;
  }

  lemma ReadRef(data: seq<Byte>, t0: seq<Byte>, pre: seq<Item>, p: seq<Byte>, all: seq<Item>)
    requires Carries(data, Emit(t0, all)) && pre + [Ref(p)] <= all
    ensures Pos(t0, pre + [Ref(p)]) == Pos(t0, pre) + 4 <= PAYLOAD_MAX && |data| == PAYLOAD_MAX
    ensures var off := PAYLOAD_MAX - |p| - |Emit(t0, pre).tail|;
            && off >= 0 && ReadLe(data, Pos(t0, pre), 2) == Some(off) && ReadLe(data, Pos(t0, pre) + 2, 2) == Some(|p|)
            && Slice(data, off, |p|) == Some(p) && off == PAYLOAD_MAX - |Emit(t0, pre + [Ref(p)]).tail|
  {
    hide Le, UnLe, ReadLe;
    EmitNext(t0, pre, Ref(p));
    CarriesPrefix(data, t0, pre + [Ref(p)], all);
    var a := Emit(t0, pre);
    hide Emit;
    RefParts(data, a, p, Le(Offset(|p| + |a.tail|), 2), Le(|p|, 2));
    RefReads(data, SLOTS_START + |a.head|, Offset(|p| + |a.tail|), |p|);
  }
}
