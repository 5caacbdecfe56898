/** Encoding a shared value and walking its bytes reports that value
    (src/idl_encode.rs, src/idl.rs). */
module IdlLaws {
  import opened Bytes
  import opened Idl
  import opened IdlEncode
  import opened IdlRoundTrip
  import opened IdlShared
  import opened IdlTree
  import opened IdlWalk
  import opened Wrappers

  /** A full walk from `at` succeeds, stops `size` bytes on, reports just `shown`, and
      spends `visits` visits. */
  predicate Reported(g: Texts, model: Model, data: seq<byte>, fields: seq<FieldDef>, at: nat, size: nat,
                     shown: seq<Field>, visits: nat)
  {
    && visits <= MAX_WALK_VISITS
    && Walk(g, model, data, fields, "", 0, Cursor(at, [], MAX_WALK_VISITS))
       == (true, Cursor(at + size, shown, MAX_WALK_VISITS - visits))
  }

  /** Encoding a shared value and walking the bytes, wherever they lie, succeeds,
      stops right after them, and reports every leaf as the value has it. */
  lemma EncodeThenWalk(g: Texts, o: Opaque, model: Model, name: string, ty: IdlType, v: Json,
                       before: seq<byte>, after: seq<byte>)
    requires Faithful(g) && Elaborate(g, o, model, ty, v).Some?
    requires var t := Elaborate(g, o, model, ty, v).value;
             Depth(t) <= MAX_WALK_DEPTH && 1 + Inner(t) <= MAX_WALK_VISITS
    ensures EncodeValue(g, o, model, ty, v).Some?
    ensures var t, b := Elaborate(g, o, model, ty, v).value, EncodeValue(g, o, model, ty, v).value;
            Reported(g, model, before + b + after, [FieldDef(Some(name), Some(ty))], |before|, |b|,
                     Shown(model, ty, t, name, |before|), 1 + Inner(t))
  {
    hide Elaborate, EncodeValue, Walk, Fits, Shown, Depth, Inner, Encode;
    ElaborateStands(g, o, model, ty, v);
    var t, b := Elaborate(g, o, model, ty, v).value, EncodeValue(g, o, model, ty, v).value;
    var data, c := before + b + after, Cursor(|before|, [], MAX_WALK_VISITS);
    assert data[|before|..] == b + after;
    SingleWalks(g, model, data, ty, t, name, 0, c, after);
    assert [] + Shown(model, ty, t, name, |before|) == Shown(model, ty, t, name, |before|);
  }

  /** The same for a whole struct's fields, as an account's data holds them. */
  lemma EncodeThenWalkFields(g: Texts, o: Opaque, model: Model, fields: seq<FieldDef>, v: Json,
                             before: seq<byte>, after: seq<byte>)
    requires Faithful(g) && v.Obj? && ElaborateFields(g, o, model, fields, v).Some?
    requires var ts := ElaborateFields(g, o, model, fields, v).value;
             DepthAll(ts) <= MAX_WALK_DEPTH && Visits(ts) <= MAX_WALK_VISITS
    ensures EncodeFields(g, o, model, fields, v).Some?
    ensures var ts, b := ElaborateFields(g, o, model, fields, v).value, EncodeFields(g, o, model, fields, v).value;
            Reported(g, model, before + b + after, fields, |before|, |b|,
                     ShownFields(model, fields, ts, "", |before|), Visits(ts))
  {
    hide ElaborateFields, EncodeFields, WalkList, FieldsFit, ShownFields, DepthAll, Visits, EncodeAll;
    FieldsStand(g, o, model, fields, v);
    var ts, b := ElaborateFields(g, o, model, fields, v).value, EncodeFields(g, o, model, fields, v).value;
    var data, c := before + b + after, Cursor(|before|, [], MAX_WALK_VISITS);
    assert data[|before|..] == b + after;
    FieldsWalk(g, model, data, fields, ts, "", 0, c, after);
    assert [] + ShownFields(model, fields, ts, "", |before|) == ShownFields(model, fields, ts, "", |before|);
  }
}
