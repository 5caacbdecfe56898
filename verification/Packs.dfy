/** The bytes that carry versions and polled spans between stores
    (src/records.rs). */
module Packs {
  import opened Bytes
  import opened Chain
  import opened Coverage
  import opened StateCodec
  import opened Wrappers

  type Address = seq<byte>

  /** The address of the entry that carries polled spans. */
  const COVERAGE_ENTRY: Address := []

  /** What one entry of a pack is: a chain for an account and the versions it
      stands for, or polled spans and bytes too few for one more. */
  datatype Packed =
    | Account(address: Address, body: seq<byte>, versions: seq<Version>)
    | Polled(spans: seq<Span>, ragged: seq<byte>)

  predicate Named(f: Foreign, address: Address) {
    address != COVERAGE_ENTRY && |address| < U32_LIMIT && f.utf8(address)
  }

  const SPAN_LEN := 16

  function EncodeSpans(spans: seq<Span>): (b: seq<byte>)
    ensures |b| == SPAN_LEN * |spans|
  {
    if spans == [] then []
    else LE64(spans[0].first) + (LE64(spans[0].last) + EncodeSpans(spans[1..]))
  }

  function EntryAddress(p: Packed): Address {
    if p.Account? then p.address else COVERAGE_ENTRY
  }

  function EntryBody(p: Packed): seq<byte> {
    if p.Account? then p.body else EncodeSpans(p.spans) + p.ragged
  }

  function EncodeEntry(address: Address, body: seq<byte>, rest: seq<byte>): (b: seq<byte>)
    ensures |b| == 8 + |address| + |body| + |rest|
  {
    LE32(TruncateU32(|address|)) + (address + (LE32(TruncateU32(|body|)) + (body + rest)))
  }

  function EncodePack(ps: seq<Packed>): seq<byte> {
    if ps == [] then [] else EncodeEntry(EntryAddress(ps[0]), EntryBody(ps[0]), EncodePack(ps[1..]))
  }

  /** An entry a store can take in: a chain that stands on its own under a proper
      name, or proper spans, within the 32-bit length of its body. */
  ghost predicate Importable(f: Foreign, p: Packed) {
    && |EntryBody(p)| < U32_LIMIT
    && (p.Account? ==> Named(f, p.address) && exists es :: IsLog(f, p.body, es, p.versions))
    && (p.Polled? ==> f.utf8(COVERAGE_ENTRY) && |p.ragged| < SPAN_LEN
                      && forall i :: 0 <= i < |p.spans| ==> Proper(p.spans[i]))
  }

  lemma EntryReads(f: Foreign, pack: seq<byte>, at: nat, address: Address, body: seq<byte>, rest: seq<byte>)
    requires f.utf8(address) && |address| < U32_LIMIT && |body| < U32_LIMIT
    requires at <= |pack| && pack[at..] == EncodeEntry(address, body, rest)
    ensures at + 8 + |address| + |body| <= |pack|
    ensures GetStr(f, pack, at) == Ok(address)
    ensures GetU32(pack, at + 4 + |address|) == Ok(|body|)
    ensures pack[at + 8 + |address|..at + 8 + |address| + |body|] == body
    ensures pack[at + 8 + |address| + |body|..] == rest
  {
    hide GetStr, GetU32;
    assert TruncateU32(|address|) == |address| && TruncateU32(|body|) == |body|;
    StrReads(f, pack, at, address, LE32(|body|) + (body + rest));
    CountReads(pack, at + 4 + |address|, |body|, body + rest);
    Reads(pack, at + 8 + |address|, body, rest);
  }

  // ---------------------------------------------------------------------------
  // Reading entry by entry

  datatype Frame = Frame(address: Address, body: seq<byte>, next: nat)

  /** The entry at `at`, and where the next one starts. */
  function FrameAt(f: Foreign, pack: seq<byte>, at: nat): (r: Result<Frame, StoreError>)
    ensures r.Ok? ==> at < r.value.next <= |pack|
  {
    var address :- GetStr(f, pack, at);
    var len :- GetU32(pack, at + 4 + |address|);
    var start := at + 8 + |address|;
    if start + len > |pack| then Err(Truncated) else Ok(Frame(address, pack[start..start + len], start + len))
  }

  /** Bytes no entry can be read from: nothing, or an entry cut short or misnamed. */
  predicate Broken(f: Foreign, tail: seq<byte>) { tail == [] || FrameAt(f, tail, 0).Err? }

  lemma FrameIsLocal(f: Foreign, pack: seq<byte>, at: nat, tail: seq<byte>)
    requires at <= |pack| && pack[at..] == tail
    ensures FrameAt(f, pack, at).Ok? <==> FrameAt(f, tail, 0).Ok?
    ensures FrameAt(f, tail, 0).Err? ==> FrameAt(f, pack, at) == FrameAt(f, tail, 0)
  {
    StrIsLocal(f, pack, at, tail);
    if GetStr(f, tail, 0).Ok? {
      var a := GetStr(f, tail, 0).value;
      CountIsLocal(pack, at, tail, 4 + |a|);
    }
  }

  lemma SliceIsLocal(pack: seq<byte>, at: nat, tail: seq<byte>, i: nat, j: nat)
    requires at <= |pack| && pack[at..] == tail && i <= j <= |tail|
    ensures at + j <= |pack| && pack[at + i..at + j] == tail[i..j]
  {
    assert pack[at..][i..j] == pack[at + i..at + j];
  }

  lemma CountIsLocal(pack: seq<byte>, at: nat, tail: seq<byte>, k: nat)
    requires at <= |pack| && pack[at..] == tail
    ensures GetU32(pack, at + k) == GetU32(tail, k)
  {
    if k + 4 <= |tail| {
      SliceIsLocal(pack, at, tail, k, k + 4);
    }
  }

  lemma StrIsLocal(f: Foreign, pack: seq<byte>, at: nat, tail: seq<byte>)
    requires at <= |pack| && pack[at..] == tail
    ensures GetStr(f, pack, at) == GetStr(f, tail, 0)
  {
    hide GetU32;
    CountIsLocal(pack, at, tail, 0);
    var n := GetU32(tail, 0);
    if n.Ok? && 4 + n.value <= |tail| {
      SliceIsLocal(pack, at, tail, 4, 4 + n.value);
    }
  }

  /** An entry read from the front reads the same whatever follows. */
  lemma FrameExtends(f: Foreign, b: seq<byte>, more: seq<byte>)
    requires FrameAt(f, b, 0).Ok?
    ensures FrameAt(f, b + more, 0) == FrameAt(f, b, 0)
  {
    var address, all := GetStr(f, b, 0).value, b + more;
    var start := 8 + |address|;
    assert all[0..4] == b[0..4];
    assert all[4..4 + |address|] == b[4..4 + |address|];
    assert all[4 + |address|..start] == b[4 + |address|..start];
    var len := GetU32(b, 4 + |address|).value;
    assert all[start..start + len] == b[start..start + len];
  }

  /** The first `n` bytes of a pack are its first entries whole, and then at most an
      entry cut short. */
  predicate CutAt(f: Foreign, ps: seq<Packed>, n: nat, k: nat, tail: seq<byte>)
    requires n <= |EncodePack(ps)|
  {
    k <= |ps| && EncodePack(ps)[..n] == EncodePack(ps[..k]) + tail && Broken(f, tail)
  }

  /** A pack cut anywhere still splits into whole entries and a broken rest. */
  lemma {:induction false} CutPack(f: Foreign, ps: seq<Packed>, n: nat)
    requires forall i :: 0 <= i < |ps| ==> Importable(f, ps[i])
    requires n <= |EncodePack(ps)|
    ensures exists k, tail :: CutAt(f, ps, n, k, tail)
  {
    hide Importable, CutAt;
    if n == 0 {
      CutNothing(f, ps);
    } else if n < |EncodeEntry(EntryAddress(ps[0]), EntryBody(ps[0]), [])| {
      CutInFirst(f, ps, n);
    } else {
      var m := n - |EncodeEntry(EntryAddress(ps[0]), EntryBody(ps[0]), [])|;
      FirstWhole(ps);
      CutPack(f, ps[1..], m);
      var k: nat, tail :| CutAt(f, ps[1..], m, k, tail);
      CutLater(f, ps, n, m, k, tail);
    }
  }

  lemma CutNothing(f: Foreign, ps: seq<Packed>)
    ensures CutAt(f, ps, 0, 0, [])
  {
    assert EncodePack(ps[..0]) + [] == EncodePack(ps)[..0];
  }

  lemma CutInFirst(f: Foreign, ps: seq<Packed>, n: nat)
    requires ps != [] && Importable(f, ps[0]) && n < |EncodeEntry(EntryAddress(ps[0]), EntryBody(ps[0]), [])|
    requires n <= |EncodePack(ps)|
    ensures CutAt(f, ps, n, 0, EncodePack(ps)[..n])
  {
    hide Importable, EncodeEntry, Broken;
    var first := EncodeEntry(EntryAddress(ps[0]), EntryBody(ps[0]), []);
    FirstWhole(ps);
    ShortEntry(f, ps[0], n);
    assert EncodePack(ps)[..n] == first[..n];
    assert EncodePack(ps[..0]) + first[..n] == first[..n];
  }

  lemma CutLater(f: Foreign, ps: seq<Packed>, n: nat, m: nat, k: nat, tail: seq<byte>)
    requires ps != [] && m <= |EncodePack(ps[1..])| && CutAt(f, ps[1..], m, k, tail)
    requires n == |EncodeEntry(EntryAddress(ps[0]), EntryBody(ps[0]), [])| + m && n <= |EncodePack(ps)|
    ensures CutAt(f, ps, n, k + 1, tail)
  {
    hide EncodeEntry, EncodePack, Broken;
    var first, rest := EncodeEntry(EntryAddress(ps[0]), EntryBody(ps[0]), []), EncodePack(ps[1..]);
    FirstWhole(ps);
    assert EncodePack(ps)[..n] == first + rest[..m];
    assert ps[..k + 1][1..] == ps[1..][..k] && ps[..k + 1][0] == ps[0];
    FirstWhole(ps[..k + 1]);
    assert first + (EncodePack(ps[1..][..k]) + tail) == first + EncodePack(ps[1..][..k]) + tail;
  }

  lemma FirstWhole(ps: seq<Packed>)
    requires ps != []
    ensures EncodePack(ps) == EncodeEntry(EntryAddress(ps[0]), EntryBody(ps[0]), []) + EncodePack(ps[1..])
  {
    var rest := EncodePack(ps[1..]);
    EntryThenMore(EntryAddress(ps[0]), EntryBody(ps[0]), [], rest);
    assert [] + rest == rest;
  }

  /** An entry cut short cannot be read. */
  lemma ShortEntry(f: Foreign, p: Packed, n: nat)
    requires Importable(f, p)
    requires n < |EncodeEntry(EntryAddress(p), EntryBody(p), [])|
    ensures Broken(f, EncodeEntry(EntryAddress(p), EntryBody(p), [])[..n])
  {
    hide EncodeEntry;
    var all := EncodeEntry(EntryAddress(p), EntryBody(p), []);
    EntryFrame(f, p);
    assert all[..n] + all[n..] == all;
    if FrameAt(f, all[..n], 0).Ok? {
      FrameExtends(f, all[..n], all[n..]);
    }
  }

  lemma EntryFrame(f: Foreign, p: Packed)
    requires Importable(f, p)
    ensures var all := EncodeEntry(EntryAddress(p), EntryBody(p), []);
            FrameAt(f, all, 0) == Ok(Frame(EntryAddress(p), EntryBody(p), |all|))
  {
    hide GetStr, GetU32, EncodeEntry, IsLog;
    var all := EncodeEntry(EntryAddress(p), EntryBody(p), []);
    assert all[0..] == all;
    EntryReads(f, all, 0, EntryAddress(p), EntryBody(p), []);
  }

  lemma {:induction false} PackSnoc(ps: seq<Packed>, p: Packed)
    ensures EncodePack(ps + [p]) == EncodePack(ps) + EncodeEntry(EntryAddress(p), EntryBody(p), [])
  {
    if ps == [] {
      assert ps + [p] == [p];
    } else {
      PackSnoc(ps[1..], p);
      assert (ps + [p])[1..] == ps[1..] + [p];
      EntryThenMore(EntryAddress(ps[0]), EntryBody(ps[0]), EncodePack(ps[1..]),
                    EncodeEntry(EntryAddress(p), EntryBody(p), []));
    }
  }

  lemma EntryThenMore(address: Address, body: seq<byte>, rest: seq<byte>, more: seq<byte>)
    ensures EncodeEntry(address, body, rest + more) == EncodeEntry(address, body, rest) + more
  {
    var tail := LE32(TruncateU32(|body|)) + (body + rest);
    assert LE32(TruncateU32(|body|)) + (body + (rest + more)) == tail + more;
    assert address + (tail + more) == (address + tail) + more;
  }

  lemma SpanReads(body: seq<byte>, at: nat, s: Span, rest: seq<byte>)
    requires at <= |body| && body[at..] == LE64(s.first) + (LE64(s.last) + rest)
    ensures at + 16 <= |body| && GetU64(body, at) == Ok(s.first) && GetU64(body, at + 8) == Ok(s.last)
    ensures body[at + 16..] == rest
  {
    Reads(body, at, LE64(s.first), LE64(s.last) + rest);
    Reads(body, at + 8, LE64(s.last), rest);
  }

  /** The spans a coverage entry carries; what is left over is ignored. */
  method ReadSpans(body: seq<byte>, ghost spans: seq<Span>, ghost ragged: seq<byte>) returns (r: seq<Span>)
    requires body == EncodeSpans(spans) + ragged && |ragged| < SPAN_LEN
    ensures r == spans
  {
    r := [];
    var p := 0;
    assert body[0..] == body;
    while p + SPAN_LEN <= |body|
      invariant |r| <= |spans| && r == spans[..|r|]
      invariant p == SPAN_LEN * |r| <= |body|
      invariant body[p..] == EncodeSpans(spans[|r|..]) + ragged
    {
      ghost var rest := spans[|r|..];
      assert rest[1..] == spans[|r| + 1..];
      FrontSpan(rest, ragged);
      SpanReads(body, p, rest[0], EncodeSpans(rest[1..]) + ragged);
      r := r + [Span(GetU64(body, p).value, GetU64(body, p + 8).value)];
      p := p + SPAN_LEN;
    }
  }

  lemma FrontSpan(spans: seq<Span>, ragged: seq<byte>)
    requires spans != []
    ensures EncodeSpans(spans) + ragged
         == LE64(spans[0].first) + (LE64(spans[0].last) + (EncodeSpans(spans[1..]) + ragged))
  {
    var rest := EncodeSpans(spans[1..]);
    assert (LE64(spans[0].last) + rest) + ragged == LE64(spans[0].last) + (rest + ragged);
    assert (LE64(spans[0].first) + (LE64(spans[0].last) + rest)) + ragged
        == LE64(spans[0].first) + ((LE64(spans[0].last) + rest) + ragged);
  }

  /** Any bytes are the spans they hold and what is left over. */
  lemma {:induction false} SpansOfAny(body: seq<byte>)
    ensures exists spans, ragged :: body == EncodeSpans(spans) + ragged && |ragged| < SPAN_LEN
  {
    hide EncodeSpans;
    if |body| < SPAN_LEN {
      NoSpans(body);
    } else {
      SpansOfAny(body[SPAN_LEN..]);
      var spans, ragged :| body[SPAN_LEN..] == EncodeSpans(spans) + ragged && |ragged| < SPAN_LEN;
      var s := FirstSpan(body, spans, ragged);
    }
  }

  lemma NoSpans(body: seq<byte>)
    ensures EncodeSpans([]) + body == body
  {
  }

  lemma FirstSpan(body: seq<byte>, spans: seq<Span>, ragged: seq<byte>) returns (s: Span)
    requires |body| >= SPAN_LEN && body[SPAN_LEN..] == EncodeSpans(spans) + ragged
    ensures body == EncodeSpans([s] + spans) + ragged
  {
    hide EncodeSpans, LE64, ReadU64, LittleEndian, FromLittleEndian;
    s := Span(ReadU64(body[..8]), ReadU64(body[8..SPAN_LEN]));
    WrittenBack(body[..8]);
    WrittenBack(body[8..SPAN_LEN]);
    FrontSpan([s] + spans, ragged);
    assert ([s] + spans)[1..] == spans;
    assert body == body[..8] + (body[8..SPAN_LEN] + body[SPAN_LEN..]);
  }

  lemma WrittenBack(b: seq<byte>)
    requires |b| == 8
    ensures LE64(ReadU64(b)) == b
  {
    FromLittleEndianRoundTrip(b);
  }
}
