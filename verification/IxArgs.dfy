/** Instruction arguments in an instruction's data: where each lies, and what it reads
    as, while every argument before it has a fixed size (src/idl.rs). */
module IxArgs {
  import opened Bytes
  import opened Idl
  import opened IdlEncode
  import opened IdlShared
  import opened IdlTree
  import opened IdlWalk
  import opened Wrappers

  /** How many leading bytes the discriminator takes: eight unless it says otherwise. */
  function DiscLen(disc: Option<seq<byte>>): nat {
    if disc.Some? && disc.value != [] then |disc.value| else 8
  }

  function KindOf(arg: FieldDef): Option<Kind> {
    var ty :- arg.ty;
    ResolveFixed(ty)
  }

  // ---------------------------------------------------------------------------
  // Spans

  datatype Span = Span(offset: nat, size: nat, caption: string)

  /** The span of the first argument of that name, `offset` being where the first of
      these lies. */
  function SpanFrom(args: seq<FieldDef>, name: string, offset: nat): Option<Span> {
    if args == [] then None
    else
      var kind :- KindOf(args[0]);
      if args[0].name == Some(name) then Some(Span(offset, Size(kind), Label(kind)))
      else if offset + Size(kind) >= U64_LIMIT then None
      else SpanFrom(args[1..], name, offset + Size(kind))
  }

  method IxArgSpan(disc: Option<seq<byte>>, args: seq<FieldDef>, name: string) returns (r: Option<Span>)
    ensures r == SpanFrom(args, name, DiscLen(disc))
  {
    hide KindOf, Size, Label;
    var offset: nat := DiscLen(disc);
    var i, going := 0, true;
    r := None;
    assert args[0..] == args;
    while i < |args| && going
      invariant i <= |args|
      invariant going ==> r == None && SpanFrom(args, name, DiscLen(disc)) == SpanFrom(args[i..], name, offset)
      invariant !going ==> r == SpanFrom(args, name, DiscLen(disc))
      decreases |args| - i, going
    {
      assert args[i..][1..] == args[i + 1..];
      var kind := KindOf(args[i]);
      if kind.None? {
        going := false;
      } else if args[i].name == Some(name) {
        r, going := Some(Span(offset, Size(kind.value), Label(kind.value))), false;
      } else if offset + Size(kind.value) >= U64_LIMIT {
        going := false;
      } else {
        offset, i := offset + Size(kind.value), i + 1;
      }
    }
  }

  /** A span holds just the bytes its argument encodes to. */
  lemma {:induction false} SpanHoldsArgument(g: Texts, o: Opaque, model: Model, args: seq<FieldDef>, v: Json,
                                             name: string, offset: nat, data: seq<byte>, rest: seq<byte>)
    requires Faithful(g) && v.Obj? && EncodeFields(g, o, model, args, v).Some?
    requires offset <= |data| && data[offset..] == EncodeFields(g, o, model, args, v).value + rest
    requires SpanFrom(args, name, offset).Some?
    ensures var span := SpanFrom(args, name, offset).value;
            && offset <= span.offset && span.offset + span.size <= |data|
            && Held(g, o, model, args, v, name, data[span.offset..span.offset + span.size])
  {
    hide EncodeValue, Size, Label, ResolveFixed, Get, HeldBy;
    var ty := args[0].ty.value;
    var value := Get(v.members, args[0].name.value).value;
    var head, tail := EncodeValue(g, o, model, ty, value).value, EncodeFields(g, o, model, args[1..], v).value;
    FixedLength(g, o, model, ty, value);
    assert head + tail + rest == head + (tail + rest);
    Reads(data, offset, head, tail + rest);
    if args[0].name == Some(name) {
      FirstHeld(g, o, model, args, v, name, head);
    } else {
      SpanHoldsArgument(g, o, model, args[1..], v, name, offset + |head|, data, rest);
      var span := SpanFrom(args, name, offset).value;
      var bytes := data[span.offset..span.offset + span.size];
      var i :| 0 <= i < |args[1..]| && HeldBy(g, o, model, args[1..], v, name, i, bytes);
      LaterHeld(g, o, model, args, v, name, i, bytes);
    }
  }

  /** Argument `i` is the first of that name, and encodes to these bytes. */
  ghost predicate HeldBy(g: Texts, o: Opaque, model: Model, args: seq<FieldDef>, v: Json, name: string, i: nat,
                         bytes: seq<byte>)
    requires Faithful(g) && v.Obj? && i < |args|
  {
    && args[i].name == Some(name) && args[i].ty.Some? && Get(v.members, name).Some?
    && (forall j :: 0 <= j < i ==> args[j].name != Some(name))
    && EncodeValue(g, o, model, args[i].ty.value, Get(v.members, name).value) == Some(bytes)
  }

  /** The first argument of that name encodes to these bytes. */
  ghost predicate Held(g: Texts, o: Opaque, model: Model, args: seq<FieldDef>, v: Json, name: string, bytes: seq<byte>)
    requires Faithful(g) && v.Obj?
  {
    exists i :: 0 <= i < |args| && HeldBy(g, o, model, args, v, name, i, bytes)
  }

  lemma FirstHeld(g: Texts, o: Opaque, model: Model, args: seq<FieldDef>, v: Json, name: string, bytes: seq<byte>)
    requires Faithful(g) && v.Obj? && args != [] && args[0].name == Some(name) && args[0].ty.Some?
    requires Get(v.members, name).Some?
    requires EncodeValue(g, o, model, args[0].ty.value, Get(v.members, name).value) == Some(bytes)
    ensures HeldBy(g, o, model, args, v, name, 0, bytes)
  {
  }

  lemma LaterHeld(g: Texts, o: Opaque, model: Model, args: seq<FieldDef>, v: Json, name: string, i: nat,
                  bytes: seq<byte>)
    requires Faithful(g) && v.Obj? && args != [] && args[0].name != Some(name)
    requires i < |args[1..]| && HeldBy(g, o, model, args[1..], v, name, i, bytes)
    ensures HeldBy(g, o, model, args, v, name, i + 1, bytes)
  {
    hide EncodeValue;
    forall j | 0 <= j < i + 1 ensures args[j].name != Some(name) {
      if j > 0 {
        assert args[1..][j - 1] == args[j];
      }
    }
  }

  // ---------------------------------------------------------------------------
  // Values

  /** A fixed-size type by its label, or the type whose size is not fixed, whose own
      label is not part of this model. */
  datatype ArgType = Fixed(text: string) | Composite(ty: Option<IdlType>)

  datatype Shown = Shown(name: string, ty: ArgType, value: string)

  function NameOf(arg: FieldDef): string { if arg.name.Some? then arg.name.value else "" }

  /** Each argument's name, type and value, up to the first whose size is not fixed. */
  function ReadArgs(g: Texts, args: seq<FieldDef>, data: seq<byte>, at: nat): seq<Shown> {
    if args == [] then []
    else
      var kind := KindOf(args[0]);
      if kind.None? then [Shown(NameOf(args[0]), Composite(args[0].ty), "")]
      else if at + Size(kind.value) > |data| then []
      else
        [Shown(NameOf(args[0]), Fixed(Label(kind.value)), ReadValue(g, data[at..at + Size(kind.value)], kind.value))]
        + ReadArgs(g, args[1..], data, at + Size(kind.value))
  }

  method DecodeIxArgs(g: Texts, disc: Option<seq<byte>>, args: seq<FieldDef>, data: seq<byte>)
    returns (out: seq<Shown>)
    ensures out == ReadArgs(g, args, data, DiscLen(disc))
  {
    hide KindOf, Size, Label, ReadValue, NameOf, ReadArgs;
    out := [];
    var at: nat, i, going := DiscLen(disc), 0, true;
    ghost var all := ReadArgs(g, args, data, at);
    assert args[0..] == args && [] + all == all;
    while i < |args| && going
      invariant i <= |args|
      invariant going ==> all == out + ReadArgs(g, args[i..], data, at)
      invariant !going ==> all == out
      decreases |args| - i, going
    {
      ReadFrom(g, args, i, data, at);
      var kind := KindOf(args[i]);
      if kind.None? {
        out, going := out + [Shown(NameOf(args[i]), Composite(args[i].ty), "")], false;
      } else {
        var next := at + Size(kind.value);
        if next > |data| {
          going := false;
        } else {
          var shown := Shown(NameOf(args[i]), Fixed(Label(kind.value)), ReadValue(g, data[at..next], kind.value));
          Regroup(out, shown, ReadArgs(g, args[i + 1..], data, next));
          out, at, i := out + [shown], next, i + 1;
        }
      }
    }
    if going {
      NoneLeft(g, args, data, at);
    }
  }

  /** What argument `i` and those after it read as. */
  lemma ReadFrom(g: Texts, args: seq<FieldDef>, i: nat, data: seq<byte>, at: nat)
    requires i < |args|
    ensures ReadArgs(g, args[i..], data, at)
         == match KindOf(args[i])
            case None => [Shown(NameOf(args[i]), Composite(args[i].ty), "")]
            case Some(kind) =>
              var next := at + Size(kind);
              if next > |data| then []
              else
                [Shown(NameOf(args[i]), Fixed(Label(kind)), ReadValue(g, data[at..next], kind))]
                + ReadArgs(g, args[i + 1..], data, next)
  {
    hide KindOf, Size, Label, ReadValue, NameOf;
    assert args[i..][1..] == args[i + 1..];
  }

  lemma NoneLeft(g: Texts, args: seq<FieldDef>, data: seq<byte>, at: nat)
    ensures ReadArgs(g, args[|args|..], data, at) == []
  {
  }

  lemma Regroup(out: seq<Shown>, shown: Shown, rest: seq<Shown>)
    ensures out + ([shown] + rest) == (out + [shown]) + rest
  {
  }

  /** What the encoded values should read as, up to the first that is no leaf. */
  function Told(args: seq<FieldDef>, ts: seq<Tree>): seq<Shown>
    requires |args| == |ts|
  {
    if ts == [] then []
    else if ts[0].Leaf? then
      [Shown(NameOf(args[0]), Fixed(Label(ts[0].kind)), ts[0].shown)] + Told(args[1..], ts[1..])
    else [Shown(NameOf(args[0]), Composite(args[0].ty), "")]
  }

  /** A typed value is a leaf just when its type has a fixed size. */
  lemma LeafIffFixed(g: Texts, model: Model, ty: IdlType, t: Tree)
    requires Fits(g, model, ty, t)
    ensures if t.Leaf? then ResolveFixed(ty) == Some(t.kind) && |t.bytes| == Size(t.kind)
          && ReadValue(g, t.bytes, t.kind) == t.shown
            else ResolveFixed(ty).None?
  {
    hide ReadValue, Size, FieldsFit, AllFit, RowsFit;
  }

  lemma ReadNext(g: Texts, args: seq<FieldDef>, data: seq<byte>, at: nat, next: nat,
                 kind: Kind, shown: string)
    requires args != [] && KindOf(args[0]) == Some(kind) && next == at + Size(kind) <= |data|
    requires ReadValue(g, data[at..next], kind) == shown
    ensures ReadArgs(g, args, data, at)
         == [Shown(NameOf(args[0]), Fixed(Label(kind)), shown)] + ReadArgs(g, args[1..], data, next)
  {
    hide ReadValue, Label, NameOf, KindOf;
  }

  /** What the first of some typed values contributes. */
  lemma FirstFacts(g: Texts, model: Model, args: seq<FieldDef>, ts: seq<Tree>)
    requires ts != [] && FieldsFit(g, model, args, ts)
    ensures |args| == |ts| && FieldsFit(g, model, args[1..], ts[1..])
    ensures EncodeAll(ts) == Encode(ts[0]) + EncodeAll(ts[1..])
    ensures if ts[0].Leaf?
            then Encode(ts[0]) == ts[0].bytes && |ts[0].bytes| == Size(ts[0].kind)
                 && KindOf(args[0]) == Some(ts[0].kind) && ReadValue(g, ts[0].bytes, ts[0].kind) == ts[0].shown
            else KindOf(args[0]).None?
  {
    hide Fits, ResolveFixed, ReadValue, Size;
    LeafIffFixed(g, model, args[0].ty.value, ts[0]);
  }

  /** Reading back the arguments of encoded values shows those values. */
  lemma {:induction false} ReadArgsShowsValues(g: Texts, model: Model, args: seq<FieldDef>,
                                               ts: seq<Tree>, data: seq<byte>, at: nat, rest: seq<byte>)
    requires |args| == |ts| && FieldsFit(g, model, args, ts)
    requires at <= |data| && data[at..] == EncodeAll(ts) + rest
    ensures ReadArgs(g, args, data, at) == Told(args, ts)
    decreases ts, 1
  {
    hide *;
    if ts == [] {
      NothingRead(g, args, data, at);
    } else {
      FirstFacts(g, model, args, ts);
      ToldNext(args, ts);
      if ts[0].Leaf? {
        var next := at + |ts[0].bytes|;
        Leads(data, at, ts[0].bytes, EncodeAll(ts[1..]), rest);
        ReadNext(g, args, data, at, next, ts[0].kind, ts[0].shown);
        RestShows(g, model, args, ts, data, next, rest);
      } else {
        ReadStops(g, args, data, at);
      }
    }
  }

  lemma {:induction false} RestShows(g: Texts, model: Model, args: seq<FieldDef>, ts: seq<Tree>, data: seq<byte>,
                                     next: nat, rest: seq<byte>)
    requires ts != [] && |args| == |ts| && FieldsFit(g, model, args[1..], ts[1..])
    requires next <= |data| && data[next..] == EncodeAll(ts[1..]) + rest
    ensures ReadArgs(g, args[1..], data, next) == Told(args[1..], ts[1..])
    decreases ts, 0
  {
    hide *;
    ReadArgsShowsValues(g, model, args[1..], ts[1..], data, next, rest);
  }

  lemma Leads(data: seq<byte>, at: nat, head: seq<byte>, tail: seq<byte>, rest: seq<byte>)
    requires at <= |data| && data[at..] == head + tail + rest
    ensures at + |head| <= |data| && data[at..at + |head|] == head && data[at + |head|..] == tail + rest
  {
    assert head + tail + rest == head + (tail + rest);
    Reads(data, at, head, tail + rest);
  }

  lemma NothingRead(g: Texts, args: seq<FieldDef>, data: seq<byte>, at: nat)
    requires args == []
    ensures ReadArgs(g, args, data, at) == [] && Told(args, []) == []
  {
  }

  lemma ToldNext(args: seq<FieldDef>, ts: seq<Tree>)
    requires |args| == |ts| > 0
    ensures Told(args, ts)
         == if ts[0].Leaf? then [Shown(NameOf(args[0]), Fixed(Label(ts[0].kind)), ts[0].shown)]
               + Told(args[1..], ts[1..])
            else [Shown(NameOf(args[0]), Composite(args[0].ty), "")]
  {
    hide NameOf, Label;
  }

  lemma ReadStops(g: Texts, args: seq<FieldDef>, data: seq<byte>, at: nat)
    requires args != [] && KindOf(args[0]).None?
    ensures ReadArgs(g, args, data, at) == [Shown(NameOf(args[0]), Composite(args[0].ty), "")]
  {
  }

  /** So decoding an encoded instruction shows the arguments it was encoded from. */
  lemma EncodeThenDecodeArgs(g: Texts, o: Opaque, model: Model, args: seq<FieldDef>, v: Json,
                             disc: Option<seq<byte>>, head: seq<byte>)
    requires Faithful(g) && v.Obj? && ElaborateFields(g, o, model, args, v).Some? && |head| == DiscLen(disc)
    ensures EncodeFields(g, o, model, args, v).Some?
    ensures |ElaborateFields(g, o, model, args, v).value| == |args|
    ensures ReadArgs(g, args, head + EncodeFields(g, o, model, args, v).value, DiscLen(disc))
         == Told(args, ElaborateFields(g, o, model, args, v).value)
  {
    hide ElaborateFields, EncodeFields, EncodeAll, ReadArgs, Told;
    FieldsStand(g, o, model, args, v);
    var b := EncodeFields(g, o, model, args, v).value;
    assert (head + b)[|head|..] == b + [];
    ReadArgsShowsValues(g, model, args, ElaborateFields(g, o, model, args, v).value, head + b, |head|, []);
  }
}
