/** Walking the bytes of a value reports that value: the encoder and the walk are
    inverses on the part of the type language they share (src/idl_encode.rs,
    src/idl.rs). */
module IdlRoundTrip {
  import opened Bytes
  import opened Idl
  import opened IdlTree
  import opened IdlWalk
  import opened Wrappers

  /** The walk gone past `size` bytes, reporting `shown`, on `spent` visits. */
  function Advance(c: Cursor, size: nat, shown: seq<Field>, spent: nat): Cursor
    requires spent <= c.budget
  {
    Cursor(c.offset + size, c.out + shown, c.budget - spent)
  }

  lemma AdvanceTwice(c: Cursor, s1: nat, f1: seq<Field>, b1: nat, s2: nat, f2: seq<Field>, b2: nat,
                     s: nat, f: seq<Field>, b: nat)
    requires s == s1 + s2 && f == f1 + f2 && b == b1 + b2 <= c.budget
    ensures Advance(Advance(c, s1, f1, b1), s2, f2, b2) == Advance(c, s, f, b)
  {
    assert c.out + f1 + f2 == c.out + (f1 + f2);
  }

  /** The data from the cursor on is `b`, then `rest`. */
  predicate Ahead(data: seq<byte>, c: Cursor, b: seq<byte>, rest: seq<byte>) {
    c.offset <= |data| && data[c.offset..] == b + rest
  }

  lemma AheadSplits(data: seq<byte>, c: Cursor, d: Cursor, a: seq<byte>, b: seq<byte>, rest: seq<byte>)
    requires Ahead(data, c, a + b, rest) && d.offset == c.offset + |a|
    ensures Ahead(data, c, a, b + rest) && Ahead(data, d, b, rest)
  {
    assert a + b + rest == a + (b + rest);
    Reads(data, c.offset, a, b + rest);
  }

  lemma LengthAhead(data: seq<byte>, c: Cursor, n: u32, rest: seq<byte>)
    requires Ahead(data, c, LE32(n), rest)
    ensures ReadU32At(data, c.offset) == Some(n) && c.offset + 4 <= |data|
  {
    Reads(data, c.offset, LE32(n), rest);
  }

  lemma ByteAhead(data: seq<byte>, c: Cursor, b: byte, rest: seq<byte>)
    requires Ahead(data, c, [b], rest)
    ensures c.offset < |data| && data[c.offset] == b
  {
    Reads(data, c.offset, [b], rest);
    assert data[c.offset] == data[c.offset..c.offset + 1][0];
  }

  // ---------------------------------------------------------------------------
  // The walk of one field

  lemma LeafWalks(g: Texts, data: seq<byte>, ty: IdlType, t: Tree, name: string, c: Cursor, rest: seq<byte>)
    requires t.Leaf? && ResolveFixed(ty) == Some(t.kind)
    requires |t.bytes| == Size(t.kind) && ReadValue(g, t.bytes, t.kind) == t.shown
    requires Ahead(data, c, t.bytes, rest)
    ensures WalkFixed(g, data, ty, name, c)
         == (true, Advance(c, |t.bytes|, [Field(name, c.offset, Label(t.kind), |t.bytes|, t.shown,
               !t.kind.KindBytes?, None)], 0))
  {
    hide ResolveFixed, ReadValue, Label;
    Reads(data, c.offset, t.bytes, rest);
  }

  lemma WordsWalk(g: Texts, data: seq<byte>, t: Tree, name: string, c: Cursor, rest: seq<byte>)
    requires t.Words? && |t.utf8| < U32_LIMIT && g.decodeLossy(t.utf8) == t.text
    requires Ahead(data, c, Encode(t), rest)
    ensures WalkText(g, data, name, c)
         == (true, Advance(c, |Encode(t)|, [Field(name, c.offset, "string", 4 + |t.utf8|, t.text, false, None)], 0))
  {
    hide ReadU32At;
    assert TruncateU32(|t.utf8|) == |t.utf8|;
    var past := c.(offset := c.offset + 4);
    AheadSplits(data, c, past, LE32(|t.utf8|), t.utf8, rest);
    LengthAhead(data, c, |t.utf8|, t.utf8 + rest);
    Reads(data, past.offset, t.utf8, rest);
  }

  lemma EmptyPrefix(name: string)
    ensures "" + name == name
  {
  }

  /** Walking a single unnamed-prefix field, one call deeper. */
  lemma {:induction false} SingleWalks(g: Texts, model: Model, data: seq<byte>, ty: IdlType, t: Tree, name: string,
                                       depth: nat, c: Cursor, rest: seq<byte>)
    requires Fits(g, model, ty, t) && depth + Depth(t) <= MAX_WALK_DEPTH
    requires Ahead(data, c, Encode(t), rest) && c.budget >= 1 + Inner(t)
    ensures Walk(g, model, data, [FieldDef(Some(name), Some(ty))], "", depth, c)
         == (true, Advance(c, |Encode(t)|, Shown(model, ty, t, name, c.offset), 1 + Inner(t)))
    decreases t, 2
  {
    hide WalkOne, Fits, Shown, Depth, Inner, Encode;
    EmptyPrefix(name);
    var spent := c.(budget := c.budget - 1);
    OneWalks(g, model, data, name, ty, t, "", depth, spent, rest);
    var one := [FieldDef(Some(name), Some(ty))];
    assert one[1..] == [];
    assert Walk(g, model, data, one, "", depth, c) == WalkList(g, model, data, one, "", depth, c);
  }

  lemma {:induction false} OneWalks(g: Texts, model: Model, data: seq<byte>, own: string, ty: IdlType, t: Tree,
                                    prefix: string, depth: nat, c: Cursor, rest: seq<byte>)
    requires Fits(g, model, ty, t) && depth + Depth(t) <= MAX_WALK_DEPTH
    requires Ahead(data, c, Encode(t), rest) && c.budget >= Inner(t)
    ensures WalkOne(g, model, data, FieldDef(Some(own), Some(ty)), prefix, depth, c)
         == (true, Advance(c, |Encode(t)|, Shown(model, ty, t, prefix + own, c.offset), Inner(t)))
    decreases t, 1
  {
    hide Walk, WalkFixed, WalkText, WalkRows, WalkItems, WalkEnum, ReadU32At, AllFit, FieldsFit, RowsFit,
         EncodeAll, ShownFields, ShownItems, ShownRows, Visits, RowVisits, DepthAll, ReadValue, ResolveFixed,
         StructFields, EnumVariants, Label;
    var name := prefix + own;
    match t
    case Leaf(_, _, _) =>
      LeafIsFixed(ty);
      LeafWalks(g, data, ty, t, name, c, rest);
    case Words(_, _) => WordsWalk(g, data, t, name, c, rest);
    case Absent => AbsentWalks(data, c, name, rest);
    case Present(inner) => PresentWalks(g, model, data, ty, t, name, depth, c, rest);
    case Many(items) => ManyWalk(g, model, data, ty, t, name, depth, c, rest);
    case Record(fields) => RecordWalks(g, model, data, ty, t, name + ".", depth, c, rest);
    case Rows(rows) => RowsWalk(g, model, data, ty.inner, rows, name, 0, |rows|, depth, c, rest);
    case Variant(_, _, _) => VariantWalks(g, model, data, ty, t, name, depth, c, rest);
  }

  /** Only plain fixed-size types resolve. */
  lemma LeafIsFixed(ty: IdlType)
    ensures ResolveFixed(ty).Some? ==> ty.Bool? || ty.U? || ty.I? || ty.Pubkey? || ty.Array?
  {
  }

  lemma AbsentWalks(data: seq<byte>, c: Cursor, name: string, rest: seq<byte>)
    requires Ahead(data, c, [0], rest)
    ensures c.offset < |data| && data[c.offset] == 0
    ensures var f := Field(name, c.offset, "option", 1, "none", false, None);
            Emit(c.(offset := c.offset + 1), f, c.offset + 1) == Advance(c, 1, [f], 0)
  {
    ByteAhead(data, c, 0, rest);
  }

  lemma {:induction false} PresentWalks(g: Texts, model: Model, data: seq<byte>, ty: IdlType, t: Tree, name: string,
                                        depth: nat, c: Cursor, rest: seq<byte>)
    requires t.Present? && Fits(g, model, ty, t) && depth + Depth(t) <= MAX_WALK_DEPTH
    requires Ahead(data, c, Encode(t), rest) && c.budget >= Inner(t)
    ensures c.offset < |data| && data[c.offset] == 1
    ensures Walk(g, model, data, [FieldDef(Some(name), Some(ty.inner))], "", depth + 1, c.(offset := c.offset + 1))
         == (true, Advance(c, |Encode(t)|, Shown(model, ty, t, name, c.offset), Inner(t)))
    decreases t, 0
  {
    hide *;
    var past := c.(offset := c.offset + 1);
    PresentFacts(g, model, ty, t, name, c.offset);
    AheadSplits(data, c, past, [1], Encode(t.inner), rest);
    ByteAhead(data, c, 1, Encode(t.inner) + rest);
    SingleWalks(g, model, data, ty.inner, t.inner, name, depth + 1, past, rest);
    AdvancePast(c, past, |Encode(t.inner)|, Shown(model, ty, t, name, c.offset), Inner(t));
  }

  /** A present value's share of what it holds. */
  lemma PresentFacts(g: Texts, model: Model, ty: IdlType, t: Tree, name: string, at: nat)
    requires t.Present? && Fits(g, model, ty, t)
    ensures ty.Optional? && Fits(g, model, ty.inner, t.inner)
    ensures Encode(t) == [1] + Encode(t.inner) && Inner(t) == 1 + Inner(t.inner) && Depth(t) == 1 + Depth(t.inner)
    ensures Shown(model, ty, t, name, at) == Shown(model, ty.inner, t.inner, name, at + 1)
  {
  }

  lemma AdvancePast(c: Cursor, past: Cursor, size: nat, shown: seq<Field>, spent: nat)
    requires past == c.(offset := c.offset + 1) && spent <= c.budget
    ensures Advance(past, size, shown, spent) == Advance(c, 1 + size, shown, spent)
  {
  }

  lemma {:induction false} ManyWalk(g: Texts, model: Model, data: seq<byte>, ty: IdlType, t: Tree, name: string,
                                    depth: nat, c: Cursor, rest: seq<byte>)
    requires t.Many? && Fits(g, model, ty, t) && depth + Depth(t) <= MAX_WALK_DEPTH
    requires Ahead(data, c, Encode(t), rest) && c.budget >= Inner(t)
    ensures ReadU32At(data, c.offset) == Some(|t.items|)
    ensures WalkItems(g, model, data, ty.inner, name, 0, |t.items|, depth,
                      Emit(c, Field(name + ".len", c.offset, "u32", 4, Decimal(|t.items|), false, None), c.offset + 4))
         == (true, Advance(c, |Encode(t)|, Shown(model, ty, t, name, c.offset), Inner(t)))
    decreases t, 0
  {
    hide WalkItems, ReadU32At, Decimal, EncodeAll, AllFit, ShownItems, Visits, DepthAll;
    var n := |t.items|;
    var f := Field(name + ".len", c.offset, "u32", 4, Decimal(n), false, None);
    var past := Emit(c, f, c.offset + 4);
    assert TruncateU32(n) == n;
    AheadSplits(data, c, past, LE32(n), EncodeAll(t.items), rest);
    LengthAhead(data, c, n, EncodeAll(t.items) + rest);
    ItemsWalk(g, model, data, ty.inner, t.items, name, 0, n, depth, past, rest);
    assert past == Advance(c, 4, [f], 0);
    AdvanceTwice(c, 4, [f], 0, |EncodeAll(t.items)|,
                 ShownItems(model, ty.inner, t.items, name, 0, c.offset + 4), Visits(t.items),
                 |Encode(t)|, Shown(model, ty, t, name, c.offset), Inner(t));
  }

  lemma NoItemsWalk(g: Texts, model: Model, data: seq<byte>, ty: IdlType, name: string, i: nat, depth: nat, c: Cursor)
    requires depth <= MAX_WALK_DEPTH
    ensures WalkItems(g, model, data, ty, name, i, i, depth, c)
         == (true, Advance(c, |EncodeAll([])|, ShownItems(model, ty, [], name, i, c.offset), Visits([])))
  {
    assert c.out + [] == c.out;
  }

  lemma {:induction false} ItemsWalk(g: Texts, model: Model, data: seq<byte>, ty: IdlType, ts: seq<Tree>, name: string,
                                     i: nat, n: nat, depth: nat, c: Cursor, rest: seq<byte>)
    requires AllFit(g, model, ty, ts) && (ts != [] ==> depth + 1 + DepthAll(ts) <= MAX_WALK_DEPTH)
    requires depth <= MAX_WALK_DEPTH
    requires n == i + |ts|
    requires Ahead(data, c, EncodeAll(ts), rest) && c.budget >= Visits(ts)
    ensures WalkItems(g, model, data, ty, name, i, n, depth, c)
         == (true, Advance(c, |EncodeAll(ts)|, ShownItems(model, ty, ts, name, i, c.offset), Visits(ts)))
    decreases ts, 0
  {
    hide Walk, WalkItems, Fits, AllFit, Shown, ShownItems, Depth, Inner, Visits, Encode, EncodeAll, Ahead, ItemName;
    if ts == [] {
      NoItemsWalk(g, model, data, ty, name, i, depth, c);
    } else {
      hide DepthAll;
      var t, more := ts[0], ts[1..];
      ItemFacts(g, model, ty, ts, name, i, c.offset);
      var shown := Shown(model, ty, t, ItemName(name, i), c.offset);
      var next := Advance(c, |Encode(t)|, shown, 1 + Inner(t));
      AheadSplits(data, c, next, Encode(t), EncodeAll(more), rest);
      SingleWalks(g, model, data, ty, t, ItemName(name, i), depth + 1, c, EncodeAll(more) + rest);
      ItemsWalk(g, model, data, ty, more, name, i + 1, n, depth, next, rest);
      ItemStep(g, model, data, ty, name, i, n, depth, c, next);
      AdvanceTwice(c, |Encode(t)|, shown, 1 + Inner(t),
                   |EncodeAll(more)|, ShownItems(model, ty, more, name, i + 1, next.offset), Visits(more),
                   |EncodeAll(ts)|, ShownItems(model, ty, ts, name, i, c.offset), Visits(ts));
    }
  }

  lemma ItemStep(g: Texts, model: Model, data: seq<byte>, inner: IdlType, name: string, i: nat, n: nat,
                 depth: nat, c: Cursor, next: Cursor)
    requires depth <= MAX_WALK_DEPTH && i < n
    requires Walk(g, model, data, [FieldDef(Some(ItemName(name, i)), Some(inner))], "", depth + 1, c) == (true, next)
    ensures WalkItems(g, model, data, inner, name, i, n, depth, c)
         == WalkItems(g, model, data, inner, name, i + 1, n, depth, next)
  {
    hide Walk;
  }

  /** The first item's share of the whole. */
  lemma ItemFacts(g: Texts, model: Model, ty: IdlType, ts: seq<Tree>, name: string, i: nat, at: nat)
    requires ts != [] && AllFit(g, model, ty, ts)
    ensures Fits(g, model, ty, ts[0]) && AllFit(g, model, ty, ts[1..])
    ensures EncodeAll(ts) == Encode(ts[0]) + EncodeAll(ts[1..])
    ensures Visits(ts) == 1 + Inner(ts[0]) + Visits(ts[1..])
    ensures Depth(ts[0]) <= DepthAll(ts) && DepthAll(ts[1..]) <= DepthAll(ts)
    ensures ShownItems(model, ty, ts, name, i, at)
         == Shown(model, ty, ts[0], ItemName(name, i), at)
            + ShownItems(model, ty, ts[1..], name, i + 1, at + |Encode(ts[0])|)
  {
    hide Fits, Shown, Depth, Inner, Encode;
  }

  lemma {:induction false} RecordWalks(g: Texts, model: Model, data: seq<byte>, ty: IdlType, t: Tree, prefix: string,
                                       depth: nat, c: Cursor, rest: seq<byte>)
    requires t.Record? && Fits(g, model, ty, t) && depth + Depth(t) <= MAX_WALK_DEPTH
    requires Ahead(data, c, Encode(t), rest) && c.budget >= Inner(t)
    ensures Walk(g, model, data, StructFields(model, ty.name).value, prefix, depth + 1, c)
         == (true, Advance(c, |EncodeAll(t.fields)|,
                           ShownFields(model, StructFields(model, ty.name).value, t.fields, prefix, c.offset),
                           Visits(t.fields)))
    decreases t, 0
  {
    hide StructFields, WalkList, FieldsFit, EncodeAll, ShownFields, Visits, DepthAll;
    FieldsWalk(g, model, data, StructFields(model, ty.name).value, t.fields, prefix, depth + 1, c, rest);
  }

  lemma {:induction false} RowsWalk(g: Texts, model: Model, data: seq<byte>, ty: IdlType, ts: seq<Tree>, name: string,
                                    i: nat, n: nat, depth: nat, c: Cursor, rest: seq<byte>)
    requires ty.Defined? && StructFields(model, ty.name).Some? && RowsFit(g, model, ty, ts)
    requires depth + DepthAll(ts) <= MAX_WALK_DEPTH
    requires n == i + |ts|
    requires Ahead(data, c, EncodeAll(ts), rest) && c.budget >= RowVisits(ts)
    ensures WalkRows(g, model, data, StructFields(model, ty.name).value, name, i, n, depth, c)
         == (true, Advance(c, |EncodeAll(ts)|, ShownRows(model, ty, ts, name, i, c.offset), RowVisits(ts)))
    decreases ts, 0
  {
    if ts == [] {
      assert c.out + [] == c.out;
    } else {
      hide Walk, Fits, StructFields, Ahead, ShownFields, EncodeAll;
      var t, more := ts[0], ts[1..];
      RowFacts(g, model, ty, ts, name, i, c.offset);
      var shown := Shown(model, ty, t, ItemName(name, i), c.offset);
      var next := Advance(c, |Encode(t)|, shown, Inner(t));
      AheadSplits(data, c, next, Encode(t), EncodeAll(more), rest);
      RecordWalks(g, model, data, ty, t, ItemName(name, i) + ".", depth, c, EncodeAll(more) + rest);
      RowsWalk(g, model, data, ty, more, name, i + 1, n, depth, next, rest);
      AdvanceTwice(c, |Encode(t)|, shown, Inner(t),
                   |EncodeAll(more)|, ShownRows(model, ty, more, name, i + 1, next.offset), RowVisits(more),
                   |EncodeAll(ts)|, ShownRows(model, ty, ts, name, i, c.offset), RowVisits(ts));
    }
  }

  /** The first row's share of the whole. */
  lemma RowFacts(g: Texts, model: Model, ty: IdlType, ts: seq<Tree>, name: string, i: nat, at: nat)
    requires ts != [] && ty.Defined? && StructFields(model, ty.name).Some? && RowsFit(g, model, ty, ts)
    ensures EncodeAll(ts) == Encode(ts[0]) + EncodeAll(ts[1..])
    ensures ts[0].Record? && Encode(ts[0]) == EncodeAll(ts[0].fields) && Inner(ts[0]) == Visits(ts[0].fields)
    ensures Shown(model, ty, ts[0], ItemName(name, i), at)
         == ShownFields(model, StructFields(model, ty.name).value, ts[0].fields, ItemName(name, i) + ".", at)
  {
  }

  lemma {:induction false} FieldsWalk(g: Texts, model: Model, data: seq<byte>, defs: seq<FieldDef>, ts: seq<Tree>,
                                      prefix: string, depth: nat, c: Cursor, rest: seq<byte>)
    requires FieldsFit(g, model, defs, ts) && depth + DepthAll(ts) <= MAX_WALK_DEPTH
    requires Ahead(data, c, EncodeAll(ts), rest) && c.budget >= Visits(ts)
    ensures WalkList(g, model, data, defs, prefix, depth, c)
         == (true, Advance(c, |EncodeAll(ts)|, ShownFields(model, defs, ts, prefix, c.offset), Visits(ts)))
    decreases ts, 0
  {
    hide *;
    if ts == [] {
      NoFieldsWalk(g, model, data, defs, prefix, depth, c);
    } else {
      FieldFacts(g, model, defs, ts, prefix, c.offset);
      var t, more := ts[0], ts[1..];
      var own, ty := defs[0].name.value, defs[0].ty.value;
      var shown := Shown(model, ty, t, prefix + own, c.offset);
      var spent := c.(budget := c.budget - 1);
      var next := Advance(c, |Encode(t)|, shown, 1 + Inner(t));
      AdvanceParts(c, spent, |Encode(t)|, shown, Inner(t));
      AheadSplits(data, c, next, Encode(t), EncodeAll(more), rest);
      AheadAnyBudget(data, c, spent, Encode(t), EncodeAll(more) + rest);
      OneWalks(g, model, data, own, ty, t, prefix, depth, spent, EncodeAll(more) + rest);
      FieldsWalk(g, model, data, defs[1..], more, prefix, depth, next, rest);
      FieldStep(g, model, data, defs, prefix, depth, c, next);
      AdvanceTwice(c, |Encode(t)|, shown, 1 + Inner(t),
                   |EncodeAll(more)|, ShownFields(model, defs[1..], more, prefix, next.offset), Visits(more),
                   |EncodeAll(ts)|, ShownFields(model, defs, ts, prefix, c.offset), Visits(ts));
    }
  }

  lemma AdvanceParts(c: Cursor, spent: Cursor, size: nat, shown: seq<Field>, inner: nat)
    requires c.budget > inner && spent == c.(budget := c.budget - 1)
    ensures Advance(spent, size, shown, inner) == Advance(c, size, shown, 1 + inner)
    ensures Advance(c, size, shown, 1 + inner).offset == c.offset + size
    ensures Advance(c, size, shown, 1 + inner).budget == c.budget - 1 - inner
  {
  }

  lemma NoFieldsWalk(g: Texts, model: Model, data: seq<byte>, defs: seq<FieldDef>, prefix: string, depth: nat,
                     c: Cursor)
    requires FieldsFit(g, model, defs, []) && depth <= MAX_WALK_DEPTH
    ensures WalkList(g, model, data, defs, prefix, depth, c)
         == (true, Advance(c, |EncodeAll([])|, ShownFields(model, defs, [], prefix, c.offset), Visits([])))
  {
    assert c.out + [] == c.out;
  }

  lemma FieldStep(g: Texts, model: Model, data: seq<byte>, defs: seq<FieldDef>, prefix: string, depth: nat,
                  c: Cursor, next: Cursor)
    requires depth <= MAX_WALK_DEPTH && defs != [] && c.budget > 0
    requires WalkOne(g, model, data, defs[0], prefix, depth, c.(budget := c.budget - 1)) == (true, next)
    ensures WalkList(g, model, data, defs, prefix, depth, c)
         == WalkList(g, model, data, defs[1..], prefix, depth, next)
  {
    hide WalkOne;
  }

  /** The first field's share of the whole. */
  lemma FieldFacts(g: Texts, model: Model, defs: seq<FieldDef>, ts: seq<Tree>, prefix: string, at: nat)
    requires ts != [] && FieldsFit(g, model, defs, ts)
    ensures defs != [] && defs[0].name.Some? && defs[0].ty.Some?
    ensures Fits(g, model, defs[0].ty.value, ts[0]) && FieldsFit(g, model, defs[1..], ts[1..])
    ensures EncodeAll(ts) == Encode(ts[0]) + EncodeAll(ts[1..])
    ensures Visits(ts) == 1 + Inner(ts[0]) + Visits(ts[1..])
    ensures Depth(ts[0]) <= DepthAll(ts) && DepthAll(ts[1..]) <= DepthAll(ts)
    ensures ShownFields(model, defs, ts, prefix, at)
         == Shown(model, defs[0].ty.value, ts[0], prefix + defs[0].name.value, at)
            + ShownFields(model, defs[1..], ts[1..], prefix, at + |Encode(ts[0])|)
  {
    hide Fits, Shown, Depth, Inner, Encode;
  }

  lemma AheadAnyBudget(data: seq<byte>, c: Cursor, d: Cursor, b: seq<byte>, rest: seq<byte>)
    requires Ahead(data, c, b, rest) && d.offset == c.offset
    ensures Ahead(data, d, b, rest)
  {
  }

  lemma {:induction false} VariantWalks(g: Texts, model: Model, data: seq<byte>, ty: IdlType, t: Tree, name: string,
                                        depth: nat, c: Cursor, rest: seq<byte>)
    requires t.Variant? && Fits(g, model, ty, t) && depth + Depth(t) <= MAX_WALK_DEPTH
    requires Ahead(data, c, Encode(t), rest) && c.budget >= Inner(t)
    ensures WalkEnum(g, model, data, ty.name, EnumVariants(model, ty.name).value, name, depth, c)
         == (true, Advance(c, |Encode(t)|, Shown(model, ty, t, name, c.offset), Inner(t)))
    decreases t, 0
  {
    hide EnumVariants, StructFields, WalkList, FieldsFit, EncodeAll, ShownFields, Visits, DepthAll, TagField;
    var variants := EnumVariants(model, ty.name).value;
    var f := TagField(ty.name, variants, t.tag, name, c.offset);
    var past := Emit(c, f, c.offset + 1);
    AheadSplits(data, c, past, [t.tag], EncodeAll(t.payload), rest);
    ByteAhead(data, c, t.tag, EncodeAll(t.payload) + rest);
    assert past == Advance(c, 1, [f], 0);
    if t.hasPayload {
      var defs := PayloadFields(variants[t.tag].fields.value);
      FieldsWalk(g, model, data, defs, t.payload, name + ".", depth + 1, past, rest);
      AdvanceTwice(c, 1, [f], 0, |EncodeAll(t.payload)|,
                   ShownFields(model, defs, t.payload, name + ".", c.offset + 1), Visits(t.payload),
                   |Encode(t)|, Shown(model, ty, t, name, c.offset), Inner(t));
    } else {
      NothingEncodes();
      assert [f] + [] == [f];
    }
  }

  lemma NothingEncodes()
    ensures EncodeAll([]) == [] && Visits([]) == 0
  {
  }
}
