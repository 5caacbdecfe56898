/** Chains appended as bytes without being decoded: when the log they leave can still be
    walked, as every thinning, export and merge must (src/records.rs). */
module BrokenChains {
  import opened Bytes
  import opened Chain
  import opened ChainIo
  import opened StateCodec
  import opened Wrappers

  lemma ShiftedPayload(bytes: seq<byte>, body: seq<byte>, e: Entry)
    requires e.offset + e.len <= |body|
    ensures Payload(bytes + body, Shift(e, |bytes|)) == Payload(body, e)
  {
  }

  lemma KeptPayload(bytes: seq<byte>, body: seq<byte>, e: Entry)
    requires e.offset + e.len <= |bytes|
    ensures Payload(bytes + body, e) == Payload(bytes, e)
  {
  }

  /** A walk over what was here does not see what was appended. */
  lemma {:induction false} WalkKept(f: Foreign, bytes: seq<byte>, es: seq<Entry>, body: seq<byte>,
                                    all: seq<Entry>, n: nat)
    requires IsIndex(bytes, es) && IsIndex(bytes + body, all) && es <= all && n <= |es|
    ensures Walked(f, None, bytes + body, all, n) == Walked(f, None, bytes, es, n)
  {
    hide Step, IsIndex;
    if n > 0 {
      WalkKept(f, bytes, es, body, all, n - 1);
      EntriesInBounds(bytes, es, n - 1);
      KeptPayload(bytes, body, es[n - 1]);
    }
  }

  /** Past it, the appended chain is walked from the newest state that was here. */
  lemma {:induction false} AppendedWalks(f: Foreign, bytes: seq<byte>, es: seq<Entry>, vs: seq<Version>,
                                         body: seq<byte>, fs: seq<Entry>, n: nat)
    requires IsLog(f, bytes, es, vs) && IsIndex(body, fs) && n <= |fs|
    ensures IsIndex(bytes + body, es + ShiftAll(fs, |bytes|))
    ensures Walked(f, None, bytes + body, es + ShiftAll(fs, |bytes|), |es| + n)
         == Walked(f, LastState(vs), body, fs, n)
  {
    hide IsLog, Step, IsIndex, EndsClean;
    var all := es + ShiftAll(fs, |bytes|);
    CleanLog(f, bytes, es, vs);
    IndexOfConcat(bytes, es, body, fs);
    if n == 0 {
      LogWalks(f, bytes, es, vs, |es|);
      WalkKept(f, bytes, es, body, all, |es|);
    } else {
      AppendedWalks(f, bytes, es, vs, body, fs, n - 1);
      EntriesInBounds(body, fs, n - 1);
      ShiftedPayload(bytes, body, fs[n - 1]);
    }
  }

  lemma CleanLog(f: Foreign, bytes: seq<byte>, es: seq<Entry>, vs: seq<Version>)
    requires IsLog(f, bytes, es, vs)
    ensures IsIndex(bytes, es) && EndsClean(bytes, es) && |es| == |vs|
  {
  }

  /** A log a chain was appended to decodes exactly when the chain does, walked from the
      newest state there was. */
  lemma AppendedDecodesIff(f: Foreign, bytes: seq<byte>, es: seq<Entry>, vs: seq<Version>,
                           body: seq<byte>, fs: seq<Entry>)
    requires IsLog(f, bytes, es, vs) && IsIndex(body, fs)
    ensures IsIndex(bytes + body, es + ShiftAll(fs, |bytes|))
    ensures Passed(f, bytes + body, es + ShiftAll(fs, |bytes|)).Ok?
       <==> Walked(f, LastState(vs), body, fs, |fs|).Ok?
  {
    hide IsLog, Walked, IsIndex;
    AppendedWalks(f, bytes, es, vs, body, fs, |fs|);
  }

  /** A chain that decodes on its own decodes after any state, and alike. */
  lemma {:induction false} AloneThenAnywhere(f: Foreign, init: Option<AccountState>, body: seq<byte>,
                                             fs: seq<Entry>, n: nat)
    requires IsIndex(body, fs) && 0 < n <= |fs| && Walked(f, None, body, fs, n).Ok?
    ensures Walked(f, init, body, fs, n) == Walked(f, None, body, fs, n)
  {
    hide IsIndex, DecodeFull, ApplyDiff;
    if n > 1 {
      hide Step;
      AloneThenAnywhere(f, init, body, fs, n - 1);
    }
  }

  /** So a chain that decodes on its own leaves a log that does; and upon a log with no
      newest state, none but such a chain does. */
  lemma AppendedAloneIff(f: Foreign, bytes: seq<byte>, es: seq<Entry>, vs: seq<Version>,
                         body: seq<byte>, fs: seq<Entry>)
    requires IsLog(f, bytes, es, vs) && IsIndex(body, fs)
    ensures IsIndex(bytes + body, es + ShiftAll(fs, |bytes|))
    ensures Passed(f, body, fs).Ok? ==> Passed(f, bytes + body, es + ShiftAll(fs, |bytes|)).Ok?
    ensures LastState(vs).None? ==>
              (Passed(f, bytes + body, es + ShiftAll(fs, |bytes|)).Ok? <==> Passed(f, body, fs).Ok?)
  {
    hide IsLog, IsIndex, Step;
    AppendedDecodesIff(f, bytes, es, vs, body, fs);
    if fs != [] && Passed(f, body, fs).Ok? {
      AloneThenAnywhere(f, LastState(vs), body, fs, |fs|);
    }
  }

  /** One diff and nothing else, taken in by a store that has nothing of the account: it
      is indexed, and from then on the log decodes no more. */
  lemma DiffUponNothing(f: Foreign)
    ensures var body, fs := EncodeRecord(1, DIFF, []), [Entry(1, DIFF, HEADER_LEN, 0)];
            && IsIndex(body, fs) && Passed(f, body, fs) == Err(DiffWithoutBase)
  {
    hide EncodeRecord;
    RecordReadsBack(1, DIFF, []);
    var body, fs := EncodeRecord(1, DIFF, []), [Entry(1, DIFF, HEADER_LEN, 0)];
    assert Walked(f, None, body, fs, 0) == Ok(None);
    assert Walked(f, None, body, fs, 1) == Err(DiffWithoutBase);
  }
}
