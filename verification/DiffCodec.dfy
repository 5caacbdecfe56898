/** Diffs written and applied range by range, as the original runs it
    (src/records.rs). */
module DiffCodec {
  import opened Bytes
  import opened StateCodec
  import opened Wrappers

  lemma {:induction false} EncodeRangesNext(rs: seq<Range>, after: seq<byte>, k: nat)
    requires Bounded(rs, |after|) && k < |rs|
    ensures EncodeRanges(rs[..k + 1], after) == EncodeRanges(rs[..k], after) + EncodeRange(rs[k], after, [])
  {
    hide EncodeRange;
    if k == 0 {
      assert rs[..1][1..] == [] && rs[..1][0] == rs[0];
      OneRange(rs[0], after, []);
    } else {
      EncodeRangesNext(rs[1..], after, k - 1);
      assert rs[..k + 1][1..] == rs[1..][..k] && rs[..k][1..] == rs[1..][..k - 1];
      var rest := EncodeRanges(rs[1..][..k - 1], after);
      OneRange(rs[0], after, rest);
      OneRange(rs[0], after, rest + EncodeRange(rs[k], after, []));
      var head := EncodeRange(rs[0], after, []);
      assert head + (rest + EncodeRange(rs[k], after, [])) == head + rest + EncodeRange(rs[k], after, []);
    }
  }

  lemma OneRange(r: Range, after: seq<byte>, rest: seq<byte>)
    requires r.from <= r.to <= |after|
    ensures EncodeRange(r, after, rest) == EncodeRange(r, after, []) + rest
  {
  }

  /** A diff against `base`, or nothing when it is not worth it. */
  method WriteDiff(f: Foreign, base: AccountState, s: AccountState) returns (r: Option<seq<byte>>)
    ensures r == EncodeDiff(f, base, s)
  {
    if |base.data| != |s.data| {
      r := None;
    } else {
      r := DiffOfSameLength(f, base, s);
    }
  }

  method DiffOfSameLength(f: Foreign, base: AccountState, s: AccountState) returns (r: Option<seq<byte>>)
    requires |base.data| == |s.data|
    ensures r == EncodeDiff(f, base, s)
  {
    hide EncodeRange, EncodeRanges, RangesUpto, DiffCost, Prologue;
    var rs := ChangedRanges(base.data, s.data);
    RangesAreSpaced(base.data, s.data, |s.data|);
    SpacedIsBounded(rs, |s.data|);
    if DiffCost(rs, |s.data|) * 2 >= (if |s.data| == 0 then 1 else |s.data|) {
      r := None;
    } else {
      var raw: seq<byte> := [];
      NoRanges(s.data);
      for k := 0 to |rs|
        invariant raw == EncodeRanges(rs[..k], s.data)
      {
        EncodeRangesNext(rs, s.data, k);
        raw := raw + EncodeRange(rs[k], s.data, []);
      }
      assert rs[..|rs|] == rs;
      r := Some(f.deflate(Prologue(s, LE32(TruncateU32(|rs|)) + raw)));
    }
  }

  lemma NoRanges(after: seq<byte>)
    ensures EncodeRanges([], after) == []
  {
  }

  /** The payload's ranges written over a copy of the base, stopping at the first that
      is cut short or out of range. */
  method ReadDiff(f: Foreign, base: AccountState, payload: seq<byte>) returns (r: Result<AccountState, StoreError>)
    ensures r == ApplyDiff(f, base, payload)
  {
    hide GetU64, GetStr, PatchData;
    var raw := f.inflate(payload);
    if raw.None? {
      r := Err(BadInflate);
    } else {
      var lamports := GetU64(raw.value, 0);
      var owner := GetStr(f, raw.value, 8);
      if lamports.Err? {
        r := Err(lamports.error);
      } else if owner.Err? {
        r := Err(owner.error);
      } else {
        var data := Patch(raw.value, 12 + |owner.value|, base.data);
        r := if data.Err? then Err(data.error) else Ok(AccountState(data.value, lamports.value, owner.value));
      }
    }
  }

  method Patch(raw: seq<byte>, start: nat, base: seq<byte>) returns (r: Result<seq<byte>, StoreError>)
    ensures r == PatchData(raw, start, base)
  {
    hide GetU32;
    var n := GetU32(raw, start);
    if n.Err? {
      r := Err(n.error);
    } else {
      var at: nat, data := start + 4, base;
      r := Ok(data);
      var k := 0;
      while k < n.value && r.Ok?
        invariant 0 <= k <= n.value
        invariant r.Ok? ==> r == Ok(data)
        invariant r.Ok? ==> ApplyRanges(raw, start + 4, n.value, base) == ApplyRanges(raw, at, n.value - k, data)
        invariant r.Err? ==> r == ApplyRanges(raw, start + 4, n.value, base)
        decreases n.value - k, r.Ok?
      {
        var offset, len := GetU32(raw, at), GetU32(raw, at + 4);
        if offset.Err? {
          r := Err(offset.error);
        } else if len.Err? {
          r := Err(len.error);
        } else if at + 8 + len.value > |raw| {
          r := Err(Truncated);
        } else if offset.value + len.value > |data| {
          r := Err(DiffOutOfRange);
        } else {
          data := data[..offset.value] + raw[at + 8..at + 8 + len.value] + data[offset.value + len.value..];
          r := Ok(data);
          at, k := at + 8 + len.value, k + 1;
        }
      }
    }
  }
}
