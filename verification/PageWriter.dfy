/** The in-place serializer: one page buffer with two cursors that approach each other. */
module PageWriters {
  import opened Keys
  import opened PageLayout

  ghost predicate Replaced(before: seq<Byte>, after: seq<Byte>, pos: nat, bytes: seq<Byte>) {
    && |after| == |before| && pos + |bytes| <= |before| && At(after, pos, bytes)
    && (forall j | 0 <= j < pos :: after[j] == before[j]) && (forall j | pos + |bytes| <= j < |before| :: after[j] == before[j])
  }

  /** Bytes elsewhere stay. */
  lemma AtKept(before: seq<Byte>, after: seq<Byte>, pos: nat, bytes: seq<Byte>, q: nat, s: seq<Byte>)
    requires Replaced(before, after, pos, bytes) && At(before, q, s) && (q + |s| <= pos || pos + |bytes| <= q)
    ensures At(after, q, s)
  {
    var x := after[q..q + |s|];
    forall j | 0 <= j < |s|
      ensures x[j] == s[j]
    {
      assert before[q..q + |s|][j] == s[j];
    }
    assert x == s;
  }

  lemma AtJoin(data: seq<Byte>, pos: nat, a: seq<Byte>, b: seq<Byte>)
    requires At(data, pos, a) && At(data, pos + |a|, b)
    ensures At(data, pos, a + b)
  {
    var x, s := data[pos..pos + |a| + |b|], a + b;
    forall j | 0 <= j < |s|
      ensures x[j] == s[j]
    {
      if j < |a| { assert data[pos..pos + |a|][j] == a[j]; } else { assert data[pos + |a|..pos + |a| + |b|][j - |a|] == b[j - |a|]; }
    }
    assert x == s;
  }

  /** Both ends of the page stand in the buffer, unless they have run into each other. */
  ghost predicate Ends(data: seq<Byte>, a: Area) {
    SLOTS_START + |a.head| + |a.tail| <= PAYLOAD_MAX ==>
      At(data, SLOTS_START, a.head) && At(data, PAYLOAD_MAX - |a.tail|, a.tail)
  }

  lemma EndsFixed(before: seq<Byte>, after: seq<Byte>, a: Area, b: seq<Byte>)
    requires Ends(before, a) && |a.tail| <= PAYLOAD_MAX && Replaced(before, after, SLOTS_START + |a.head|, b)
    ensures Ends(after, Area(a.head + b, a.tail))
  {
    if SLOTS_START + |a.head| + |b| + |a.tail| <= PAYLOAD_MAX {
      AtKept(before, after, SLOTS_START + |a.head|, b, SLOTS_START, a.head);
      AtKept(before, after, SLOTS_START + |a.head|, b, PAYLOAD_MAX - |a.tail|, a.tail);
      AtJoin(after, SLOTS_START, a.head, b);
    }
  }

  lemma EndsPayload(before: seq<Byte>, after: seq<Byte>, a: Area, p: seq<Byte>)
    requires Ends(before, a) && SLOTS_START + |a.head| + |p| + |a.tail| <= PAYLOAD_MAX
    requires Replaced(before, after, PAYLOAD_MAX - |a.tail| - |p|, p)
    ensures Ends(after, Area(a.head, p + a.tail))
  {
    var pos := PAYLOAD_MAX - |a.tail| - |p|;
    AtKept(before, after, pos, p, SLOTS_START, a.head);
    AtKept(before, after, pos, p, PAYLOAD_MAX - |a.tail|, a.tail);
    AtJoin(after, pos, p, a.tail);
  }

  class PageWriter {
    const buf: array<Byte>
    var slotPos: nat
    var payloadPos: nat
    ghost var t0: seq<Byte>
    ghost var items: seq<Item>

    constructor ()
      ensures Valid() && fresh(this) && fresh(buf) && t0 == [] && items == []
    {
      buf := new Byte[PAGE_SIZE](_ => 0);
      slotPos, payloadPos := SLOTS_START, PAYLOAD_MAX;
      t0, items := [], [];
    }

    ghost function Area(): Area
      reads `t0, `items
    {
      Emit(t0, items)
    }

    ghost predicate Valid()
      reads this, buf
    {
      && buf.Length == PAGE_SIZE && |Area().tail| <= PAYLOAD_MAX
      && slotPos == SLOTS_START + |Area().head| && slotPos < PAGE_SIZE && payloadPos == PAYLOAD_MAX - |Area().tail|
      && Ends(buf[..], Area())
    }

    method WriteAt(pos: nat, bytes: seq<Byte>)
      requires pos + |bytes| <= buf.Length
      modifies buf
      ensures Replaced(old(buf[..]), buf[..], pos, bytes)
    {
      var j := 0;
      while j < |bytes|
        invariant 0 <= j <= |bytes|
        invariant forall i | 0 <= i < j :: buf[pos + i] == bytes[i]
        invariant forall i | 0 <= i < pos || pos + j <= i < buf.Length :: buf[i] == old(buf[i])
      {
        buf[pos + j] := bytes[j];
        j := j + 1;
      }
      assert buf[..][pos..pos + |bytes|] == bytes;
    }

    /** Writes to the slot area; nobody checks here that it stays clear of the payload. */
    method PutFixed(b: seq<Byte>)
      requires Valid() && slotPos + |b| < PAGE_SIZE
      modifies `slotPos, `items, buf
      ensures Valid() && items == old(items) + [Fixed(b)] && slotPos == old(slotPos) + |b|
    {
      hide Emit, Ends, Replaced;
      EmitNext(t0, items, Fixed(b));
      ghost var before, a := buf[..], Area();
      WriteAt(slotPos, b);
      EndsFixed(before, buf[..], a, b);
      slotPos := slotPos + |b|;
      items := items + [Fixed(b)];
    }

    /** Writes payload and a reference to it, if the payload stays clear of the slot area as it stands. */
    method PutRef(p: seq<Byte>) returns (ok: bool)
      requires Valid() && slotPos + 4 < PAGE_SIZE
      modifies `slotPos, `payloadPos, `items, buf
      ensures Valid()
      ensures ok <==> |p| <= old(payloadPos) && old(payloadPos) - |p| >= old(slotPos)
      ensures ok ==> items == old(items) + [Ref(p)] && slotPos == old(slotPos) + 4 && payloadPos == old(payloadPos) - |p|
      ensures !ok ==> items == old(items)
    {
      hide Emit, Ends, Replaced, Le;
      if |p| > payloadPos || payloadPos - |p| < slotPos {
        return false;
      }
      EmitNext(t0, items, Ref(p));
      ghost var before, a := buf[..], Area();
      payloadPos := payloadPos - |p|;
      WriteAt(payloadPos, p);
      EndsPayload(before, buf[..], a, p);
      ghost var mid := buf[..];
      WriteAt(slotPos, Le(payloadPos, 2) + Le(|p|, 2));
      EndsFixed(mid, buf[..], PageLayout.Area(a.head, p + a.tail), Le(payloadPos, 2) + Le(|p|, 2));
      assert a.head + (Le(payloadPos, 2) + Le(|p|, 2)) == a.head + Le(payloadPos, 2) + Le(|p|, 2);
      slotPos := slotPos + 4;
      items := items + [Ref(p)];
      ok := true;
    }

    /** Writes payload that no slot refers to: a bound or the prefix. */
    method PutBound(p: seq<Byte>) returns (ok: bool)
      requires Valid() && items == []
      modifies `payloadPos, `t0, buf
      ensures Valid()
      ensures ok <==> SLOTS_START + |p| + |old(t0)| <= PAYLOAD_MAX
      ensures t0 == if ok then p + old(t0) else old(t0)
    {
      hide Replaced;
      if |p| > payloadPos || payloadPos - |p| < slotPos {
        return false;
      }
      ghost var before, a := buf[..], Area();
      payloadPos := payloadPos - |p|;
      WriteAt(payloadPos, p);
      EndsPayload(before, buf[..], a, p);
      t0 := p + t0;
      ok := true;
    }
  }
}
