/** Any walk, on any types, cyclic or not, and any bytes, stays within its budget
    and within the data (src/idl.rs). */
module IdlBounds {
  import opened Bytes
  import opened Idl
  import opened IdlWalk
  import opened Wrappers

  /** Ascending, pairwise non-overlapping fields between two offsets. */
  predicate Tidy(fs: seq<Field>, from: nat, to: nat) {
    && (forall i :: 0 <= i < |fs| ==> from <= fs[i].offset && fs[i].offset + fs[i].size <= to)
    && (forall i, j :: 0 <= i < j < |fs| ==> fs[i].offset + fs[i].size <= fs[j].offset)
  }

  /** What a stretch of the walk may do: move forward within the data, add tidy
      fields over the bytes passed, and add no more fields than visits spent, plus
      `spare`. */
  predicate Steps(data: seq<byte>, c: Cursor, d: Cursor, spare: nat) {
    && c.offset <= d.offset <= |data|
    && d.budget <= c.budget
    && |c.out| <= |d.out| && d.out[..|c.out|] == c.out
    && |d.out| + d.budget <= |c.out| + c.budget + spare
    && Tidy(d.out[|c.out|..], c.offset, d.offset)
  }

  lemma StepsNot(data: seq<byte>, c: Cursor)
    requires c.offset <= |data|
    ensures Steps(data, c, c, 0)
  {
  }

  lemma TidyConcat(a: seq<Field>, b: seq<Field>, from: nat, mid: nat, to: nat)
    requires Tidy(a, from, mid) && Tidy(b, mid, to) && from <= mid <= to
    ensures Tidy(a + b, from, to)
  {
  }

  lemma StepsThen(data: seq<byte>, c: Cursor, d: Cursor, e: Cursor, m: nat, n: nat)
    requires Steps(data, c, d, m) && Steps(data, d, e, n)
    ensures Steps(data, c, e, m + n)
  {
    var a, b := d.out[|c.out|..], e.out[|d.out|..];
    TidyConcat(a, b, c.offset, d.offset, e.offset);
    assert e.out == e.out[..|d.out|] + b;
    assert e.out[|c.out|..] == a + b;
  }

  lemma StepsEmit(data: seq<byte>, c: Cursor, f: Field, next: nat)
    requires c.offset <= f.offset && f.offset + f.size <= next <= |data|
    ensures Steps(data, c, Emit(c, f, next), 1)
  {
    assert Emit(c, f, next).out[|c.out|..] == [f];
  }

  lemma StepsSpare(data: seq<byte>, c: Cursor, d: Cursor, m: nat)
    requires Steps(data, c, d, m)
    ensures Steps(data, c, d, m + 1)
  {
  }

  lemma {:induction false} WalkSteps(g: Texts, model: Model, data: seq<byte>, fields: seq<FieldDef>, prefix: string,
                                     depth: nat, c: Cursor)
    requires c.offset <= |data|
    ensures Steps(data, c, Walk(g, model, data, fields, prefix, depth, c).1, 0)
    decreases Fuel(depth), 3
  {
    StepsNot(data, c);
    if depth <= MAX_WALK_DEPTH {
      ListSteps(g, model, data, fields, prefix, depth, c);
    }
  }

  lemma {:induction false} ListSteps(g: Texts, model: Model, data: seq<byte>, fields: seq<FieldDef>, prefix: string,
                                     depth: nat, c: Cursor)
    requires c.offset <= |data| && depth <= MAX_WALK_DEPTH
    ensures Steps(data, c, WalkList(g, model, data, fields, prefix, depth, c).1, 0)
    decreases Fuel(depth), 2, |fields|
  {
    hide Steps, WalkOne;
    StepsNot(data, c);
    if fields != [] && c.budget > 0 {
      var spent := c.(budget := c.budget - 1);
      OneSteps(g, model, data, fields[0], prefix, depth, spent);
      var (ok, next) := WalkOne(g, model, data, fields[0], prefix, depth, spent);
      VisitPaid(data, c, next);
      if ok {
        CursorInData(data, c, next, 0);
        ListSteps(g, model, data, fields[1..], prefix, depth, next);
        StepsThen(data, c, next, WalkList(g, model, data, fields[1..], prefix, depth, next).1, 0, 0);
      }
    }
  }

  lemma VisitPaid(data: seq<byte>, c: Cursor, d: Cursor)
    requires c.budget > 0 && Steps(data, c.(budget := c.budget - 1), d, 1)
    ensures Steps(data, c, d, 0)
  {
  }

  lemma CursorInData(data: seq<byte>, c: Cursor, d: Cursor, m: nat)
    requires Steps(data, c, d, m)
    ensures d.offset <= |data|
  {
  }

  lemma {:induction false} OneSteps(g: Texts, model: Model, data: seq<byte>, f: FieldDef, prefix: string,
                                    depth: nat, c: Cursor)
    requires c.offset <= |data| && depth <= MAX_WALK_DEPTH
    ensures Steps(data, c, WalkOne(g, model, data, f, prefix, depth, c).1, 1)
    decreases Fuel(depth), 1
  {
    hide Steps, Walk, WalkEnum, WalkRows, WalkItems, WalkFixed, WalkText, ReadU32At;
    StepsNot(data, c);
    StepsSpare(data, c, c, 0);
    if f.name.Some? && f.ty.Some? {
      var name := prefix + f.name.value;
      match f.ty.value
      case Defined(tname) =>
        if StructFields(model, tname).Some? {
          var fields := StructFields(model, tname).value;
          WalkSteps(g, model, data, fields, name + ".", depth + 1, c);
          StepsSpare(data, c, Walk(g, model, data, fields, name + ".", depth + 1, c).1, 0);
        } else if EnumVariants(model, tname).Some? {
          EnumSteps(g, model, data, tname, EnumVariants(model, tname).value, name, depth, c);
        }
      case Array(inner, len) =>
        if !inner.Defined? {
          FixedSteps(g, data, f.ty.value, name, c);
        } else if StructFields(model, inner.name).Some? && len <= MAX_ARRAY_ELEMS {
          var fields := StructFields(model, inner.name).value;
          RowsSteps(g, model, data, fields, name, 0, len, depth, c);
          StepsSpare(data, c, WalkRows(g, model, data, fields, name, 0, len, depth, c).1, 0);
        }
      case Str => TextSteps(g, data, name, c);
      case Optional(inner) =>
        if c.offset < |data| {
          OptionalSteps(g, model, data, inner, name, depth, c);
        }
      case Vec(inner) =>
        if c.offset + 4 <= |data| {
          VecSteps(g, model, data, inner, name, depth, c);
        }
      case _ => FixedSteps(g, data, f.ty.value, name, c);
    }
  }

  lemma {:induction false} OptionalSteps(g: Texts, model: Model, data: seq<byte>, inner: IdlType, name: string,
                                         depth: nat, c: Cursor)
    requires depth <= MAX_WALK_DEPTH && c.offset < |data|
    ensures var past := c.(offset := c.offset + 1);
            && Steps(data, c, Emit(past, Field(name, c.offset, "option", 1, "none", false, None), c.offset + 1), 1)
            && Steps(data, c, Walk(g, model, data, [FieldDef(Some(name), Some(inner))], "", depth + 1, past).1, 1)
    decreases Fuel(depth), 0, 0
  {
    hide Walk;
    var past := c.(offset := c.offset + 1);
    var one := [FieldDef(Some(name), Some(inner))];
    WalkSteps(g, model, data, one, "", depth + 1, past);
    PastByte(data, c, Walk(g, model, data, one, "", depth + 1, past).1);
    StepsEmit(data, c, Field(name, c.offset, "option", 1, "none", false, None), c.offset + 1);
  }

  lemma PastByte(data: seq<byte>, c: Cursor, d: Cursor)
    requires Steps(data, c.(offset := c.offset + 1), d, 0)
    ensures Steps(data, c, d, 1)
  {
  }

  lemma {:induction false} VecSteps(g: Texts, model: Model, data: seq<byte>, inner: IdlType, name: string,
                                    depth: nat, c: Cursor)
    requires depth <= MAX_WALK_DEPTH && c.offset + 4 <= |data|
    ensures var count := ReadU32At(data, c.offset).value;
            var past := Emit(c, Field(name + ".len", c.offset, "u32", 4, Decimal(count), false, None), c.offset + 4);
            && Steps(data, c, past, 1)
            && (count <= MAX_ELEMS ==>
                  Steps(data, c, WalkItems(g, model, data, inner, name, 0, count, depth, past).1, 1))
    decreases Fuel(depth), 0, MAX_ELEMS + 1
  {
    hide Steps, WalkItems, Decimal;
    var count := ReadU32At(data, c.offset).value;
    var f := Field(name + ".len", c.offset, "u32", 4, Decimal(count), false, None);
    var past := Emit(c, f, c.offset + 4);
    StepsEmit(data, c, f, c.offset + 4);
    if count <= MAX_ELEMS {
      ItemsSteps(g, model, data, inner, name, 0, count, depth, past);
      StepsThen(data, c, past, WalkItems(g, model, data, inner, name, 0, count, depth, past).1, 1, 0);
    }
  }

  lemma {:induction false} RowsSteps(g: Texts, model: Model, data: seq<byte>, fields: seq<FieldDef>, name: string,
                                     i: nat, n: nat, depth: nat, c: Cursor)
    requires c.offset <= |data| && depth <= MAX_WALK_DEPTH && i <= n
    ensures Steps(data, c, WalkRows(g, model, data, fields, name, i, n, depth, c).1, 0)
    decreases Fuel(depth), 0, n - i
  {
    hide Steps, Walk;
    StepsNot(data, c);
    if i < n {
      var next := Walk(g, model, data, fields, ItemName(name, i) + ".", depth + 1, c).1;
      WalkSteps(g, model, data, fields, ItemName(name, i) + ".", depth + 1, c);
      CursorInData(data, c, next, 0);
      RowsSteps(g, model, data, fields, name, i + 1, n, depth, next);
      StepsThen(data, c, next, WalkRows(g, model, data, fields, name, i + 1, n, depth, next).1, 0, 0);
    }
  }

  lemma {:induction false} ItemsSteps(g: Texts, model: Model, data: seq<byte>, inner: IdlType, name: string,
                                      i: nat, n: nat, depth: nat, c: Cursor)
    requires c.offset <= |data| && depth <= MAX_WALK_DEPTH && i <= n
    ensures Steps(data, c, WalkItems(g, model, data, inner, name, i, n, depth, c).1, 0)
    decreases Fuel(depth), 0, n - i
  {
    hide Steps, Walk;
    StepsNot(data, c);
    if i < n {
      var one := [FieldDef(Some(ItemName(name, i)), Some(inner))];
      var next := Walk(g, model, data, one, "", depth + 1, c).1;
      WalkSteps(g, model, data, one, "", depth + 1, c);
      CursorInData(data, c, next, 0);
      ItemsSteps(g, model, data, inner, name, i + 1, n, depth, next);
      StepsThen(data, c, next, WalkItems(g, model, data, inner, name, i + 1, n, depth, next).1, 0, 0);
    }
  }

  lemma {:induction false} EnumSteps(g: Texts, model: Model, data: seq<byte>, tname: string, variants: seq<VariantDef>,
                                     name: string, depth: nat, c: Cursor)
    requires c.offset <= |data| && depth <= MAX_WALK_DEPTH
    ensures Steps(data, c, WalkEnum(g, model, data, tname, variants, name, depth, c).1, 1)
    decreases Fuel(depth), 0, 0
  {
    hide Steps, Walk;
    StepsNot(data, c);
    StepsSpare(data, c, c, 0);
    if c.offset < |data| {
      var tag := data[c.offset];
      var f := TagField(tname, variants, tag, name, c.offset);
      var past := Emit(c, f, c.offset + 1);
      StepsEmit(data, c, f, c.offset + 1);
      if tag < |variants| && variants[tag].fields.Some? {
        var fields := PayloadFields(variants[tag].fields.value);
        WalkSteps(g, model, data, fields, name + ".", depth + 1, past);
        StepsThen(data, c, past, Walk(g, model, data, fields, name + ".", depth + 1, past).1, 1, 0);
      }
    }
  }

  lemma TextSteps(g: Texts, data: seq<byte>, name: string, c: Cursor)
    requires c.offset <= |data|
    ensures Steps(data, c, WalkText(g, data, name, c).1, 1)
  {
    hide Steps;
    StepsNot(data, c);
    StepsSpare(data, c, c, 0);
    var len := ReadU32At(data, c.offset);
    if len.Some? && c.offset + 4 + len.value <= |data| {
      var end := c.offset + 4 + len.value;
      StepsEmit(data, c, StringField(g, data, name, c.offset, end), end);
    }
  }

  lemma FixedSteps(g: Texts, data: seq<byte>, ty: IdlType, name: string, c: Cursor)
    requires c.offset <= |data|
    ensures Steps(data, c, WalkFixed(g, data, ty, name, c).1, 1)
  {
    hide Steps, ReadValue, ResolveFixed;
    StepsNot(data, c);
    StepsSpare(data, c, c, 0);
    var k := ResolveFixed(ty);
    if k.Some? && c.offset + Size(k.value) <= |data| {
      var end := c.offset + Size(k.value);
      StepsEmit(data, c, FixedField(g, data[c.offset..end], k.value, name, c.offset), end);
    }
  }

  /** A whole decode makes at most twenty thousand visits and fields, keeps its
      cursor within the data, and emits ascending, disjoint fields inside it. */
  lemma WalkIsBounded(g: Texts, model: Model, data: seq<byte>, fields: seq<FieldDef>, prefix: string, offset: nat)
    requires offset <= |data|
    ensures var end := Walk(g, model, data, fields, prefix, 0, Cursor(offset, [], MAX_WALK_VISITS)).1;
            && |end.out| <= MAX_WALK_VISITS - end.budget
            && offset <= end.offset <= |data|
            && Tidy(end.out, offset, end.offset)
  {
    var start := Cursor(offset, [], MAX_WALK_VISITS);
    WalkSteps(g, model, data, fields, prefix, 0, start);
    var end := Walk(g, model, data, fields, prefix, 0, start).1;
    assert end.out[0..] == end.out;
  }
}
