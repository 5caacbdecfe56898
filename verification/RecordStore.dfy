/** The log-backed store: append-only byte logs, the index over them, the
    newest-state digests, polled spans and rounds, all updated in place, and all
    agreeing with one slot-ordered list of versions per account (src/records.rs). */
module RecordStore {
  import opened Bytes
  import opened Chain
  import opened ChainIo
  import opened Coverage
  import opened Packs
  import opened Readback
  import opened Retention
  import opened RetentionLaws
  import opened Rounds
  import opened StateCodec
  import opened StoreSpec
  import opened Timeline
  import opened Wrappers

  /** Everything one account's file, index and versions owe each other. */
  ghost predicate AccountOk(f: Foreign, a: Address, files: map<Address, seq<byte>>,
                            index: map<Address, seq<Entry>>, book: Book)
    requires a in files && a in index && a in book
  {
    Named(f, a) && IsLog(f, files[a], index[a], book[a])
  }

  ghost predicate AccountsOk(f: Foreign, files: map<Address, seq<byte>>,
                             index: map<Address, seq<Entry>>, book: Book)
  {
    && index.Keys == files.Keys && book.Keys == files.Keys
    && forall a :: a in files ==> AccountOk(f, a, files, index, book)
  }

  /** Every cached digest is the newest version's. */
  ghost predicate DigestsOk(f: Foreign, latest: map<Address, u64>, book: Book) {
    forall a :: a in latest ==> Of(book, a) != [] && latest[a] == f.digest(LastState(book[a]))
  }

  lemma AccountsPut(f: Foreign, files: map<Address, seq<byte>>, index: map<Address, seq<Entry>>, book: Book,
                    a: Address, file: seq<byte>, es: seq<Entry>, vs: seq<Version>)
    requires AccountsOk(f, files, index, book) && Named(f, a) && IsLog(f, file, es, vs)
    ensures AccountsOk(f, files[a := file], index[a := es], book[a := vs])
  {
    hide IsLog;
    var files' := files[a := file];
    forall b | b in files'
      ensures AccountOk(f, b, files', index[a := es], book[a := vs])
    {
      assert b != a ==> AccountOk(f, b, files, index, book);
    }
  }

  lemma DigestsPut(f: Foreign, latest: map<Address, u64>, book: Book, a: Address, vs: seq<Version>, d: u64)
    requires DigestsOk(f, latest, book)
    requires vs != [] && d == f.digest(LastState(vs))
    ensures DigestsOk(f, latest[a := d], book[a := vs])
  {
  }

  lemma DigestsDrop(f: Foreign, latest: map<Address, u64>, book: Book, a: Address, vs: seq<Version>)
    requires DigestsOk(f, latest, book)
    ensures DigestsOk(f, latest - {a}, book[a := vs])
  {
  }

  /** Index every log of a directory. */
  method IndexAll(f: Foreign, files: map<Address, seq<byte>>,
                  ghost known: map<Address, seq<Entry>>, ghost book: Book)
    returns (found: map<Address, seq<Entry>>)
    requires AccountsOk(f, files, known, book)
    ensures found == known
  {
    hide IsLog, IsIndex;
    found := map[];
    var left := files.Keys;
    while left != {}
      invariant left <= files.Keys && found.Keys == files.Keys - left
      invariant forall a :: a in found ==> found[a] == known[a]
      decreases |left|
    {
      var a :| a in left;
      assert AccountOk(f, a, files, known, book);
      var es := IndexOf(files[a]);
      IsLogIndex(f, files[a], known[a], book[a]);
      IndexIsUnique(files[a], es, known[a]);
      found := found[a := es];
      left := left - {a};
    }
  }

  /** An account's log; one never written to is empty. */
  function LogIn(files: map<Address, seq<byte>>, a: Address): seq<byte> { if a in files then files[a] else [] }

  class LogStore {
    const f: Foreign
    /** The account logs on disk. */
    var files: map<Address, seq<byte>>
    var index: map<Address, seq<Entry>>
    var latest: map<Address, u64>
    var watched: set<Address>
    var coverage: seq<Span>
    var rounds: seq<u64>
    /** What the store records: the versions of every account. */
    ghost var book: Book

    ghost predicate Valid()
      reads this
    {
      && Sound(f)
      && AccountsOk(f, files, index, book)
      && DigestsOk(f, latest, book)
      && Normal(coverage) && Sorted(rounds)
    }

    /** A store over existing logs, indexing every one of them. */
    constructor Open(f: Foreign, files: map<Address, seq<byte>>, watched: set<Address>,
                     coverage: seq<Span>, rounds: seq<u64>,
                     ghost known: map<Address, seq<Entry>>, ghost book: Book)
      requires Sound(f) && AccountsOk(f, files, known, book)
      requires Normal(coverage) && Sorted(rounds)
      ensures Valid() && this.f == f && this.files == files && this.book == book
      ensures index == known && latest == map[]
      ensures this.watched == watched && this.coverage == coverage && this.rounds == rounds
    {
      var found := IndexAll(f, files, known, book);
      this.f, this.files, this.index, this.latest := f, files, found, map[];
      this.watched, this.coverage, this.rounds, this.book := watched, coverage, rounds, book;
    }

    function Entries(address: Address): seq<Entry>
      reads this
    {
      if address in index then index[address] else []
    }

    function ReadLog(address: Address): seq<byte>
      reads this
    {
      LogIn(files, address)
    }

    /** An account's log, recorded or not yet begun. */
    lemma AccountIsLog(address: Address)
      requires Valid()
      ensures IsLog(f, ReadLog(address), Entries(address), Of(book, address))
    {
      hide IsLog;
      if address in files {
        assert AccountOk(f, address, files, index, book);
      } else {
        EmptyLog(f);
      }
    }

    /** The newest version at or before `slot`. */
    method VersionAt(address: Address, slot: u64) returns (r: Result<Option<Version>, StoreError>)
      requires Valid()
      ensures r == Ok(Lookup(Of(book, address), slot))
    {
      hide IsLog, Valid, ReadBack;
      AccountIsLog(address);
      ReadBackOfLog(f, ReadLog(address), Entries(address), Of(book, address), slot);
      r := ReadVersion(f, ReadLog(address), Entries(address), slot);
    }

    /** The slot of the next version strictly after `slot`. */
    method NextVersionSlotAfter(address: Address, slot: u64) returns (r: Option<u64>)
      requires Valid()
      ensures r.None? ==> forall v :: v in Of(book, address) ==> v.slot <= slot
      ensures r.Some? ==> r.value > slot && HasSlot(Of(book, address), r.value)
      ensures r.Some? ==> forall v :: v in Of(book, address) && v.slot > slot ==> v.slot >= r.value
    {
      hide IsLog, Valid;
      AccountIsLog(address);
      var entries := Entries(address);
      ghost var vs := Of(book, address);
      SlotsAgree(f, ReadLog(address), entries, vs);
      for i := 0 to |entries|
        invariant forall k :: 0 <= k < i ==> entries[k].slot <= slot
      {
        if entries[i].slot > slot {
          assert vs[i].slot == entries[i].slot;
          return Some(entries[i].slot);
        }
      }
      return None;
    }

    /** Append a version, unless one as new is already there. */
    method RecordWithBalance(address: Address, slot: u64, state: Option<AccountState>, balanceKnown: bool)
      requires Valid() && Named(f, address) && StorableOrAbsent(f, state)
      modifies this`files, this`index, this`latest, this`book
      ensures Valid()
      ensures book == Record(old(book), address, Version(slot, state, Mark(state, balanceKnown)))
      ensures files - {address} == old(files) - {address} && LogIn(old(files), address) <= LogIn(files, address)
      ensures latest == if book == old(book) then old(latest) else old(latest)[address := f.digest(state)]
    {
      hide IsLog, AccountsOk, DigestsOk, Normal, Sorted, Sound;
      AccountIsLog(address);
      var entries := Entries(address);
      ghost var vs := Of(book, address);
      SlotsAgree(f, ReadLog(address), entries, vs);
      if entries != [] && entries[|entries| - 1].slot >= slot {
        return; // never write out of order
      }
      var bytes, entry := NextRecord(address, slot, state, balanceKnown);
      ghost var v := Version(slot, state, Mark(state, balanceKnown));
      AccountsPut(f, files, index, book, address, ReadLog(address) + bytes, entries + [entry], vs + [v]);
      DigestsPut(f, latest, book, address, vs + [v], f.digest(state));
      files := files[address := ReadLog(address) + bytes];
      index := index[address := entries + [entry]];
      latest := latest[address := f.digest(state)];
      book := book[address := vs + [v]];
    }

    /** The record to append for a newer version, and its index entry. */
    method NextRecord(address: Address, slot: u64, state: Option<AccountState>, balanceKnown: bool)
      returns (bytes: seq<byte>, entry: Entry)
      requires Valid() && StorableOrAbsent(f, state)
      requires var vs := Of(book, address); vs == [] || vs[|vs| - 1].slot < slot
      ensures IsLog(f, ReadLog(address) + bytes, Entries(address) + [entry],
                    Of(book, address) + [Version(slot, state, Mark(state, balanceKnown))])
    {
      hide IsLog, Valid, EncodeNext, EncodeRecord, Sound;
      AccountIsLog(address);
      SoundStore();
      var entries := Entries(address);
      var sinceFull := TrailingDiffs(entries);
      var prev := PreviousState(address);
      var (kind, payload) := EncodeNext(f, prev, sinceFull, state);
      NextDecodes(f, prev, sinceFull, state, false);
      var flagged := if balanceKnown || BaseKind(kind) == ABSENT then kind else kind + BALANCE_UNKNOWN;
      AppendVersion(f, ReadLog(address), entries, Of(book, address), sinceFull,
                    Version(slot, state, Mark(state, balanceKnown)));
      bytes := EncodeRecord(slot, flagged, payload);
      entry := Entry(slot, flagged, |ReadLog(address)| + HEADER_LEN, |payload|);
    }

    /** The state the next record may be a diff against. */
    method PreviousState(address: Address) returns (prev: Option<AccountState>)
      requires Valid()
      ensures prev == LastState(Of(book, address))
    {
      hide IsLog, Valid;
      AccountIsLog(address);
      var entries := Entries(address);
      ghost var vs := Of(book, address);
      SlotsAgree(f, ReadLog(address), entries, vs);
      if entries == [] || BaseKind(entries[|entries| - 1].kind) == ABSENT {
        return None;
      }
      LookupByPosition(vs, U64_MAX, |vs| - 1);
      var newest := VersionAt(address, U64_MAX);
      return newest.value.value.state;
    }

    /** Whether `state` is the newest version's, by digest. */
    method LatestIs(address: Address, state: Option<AccountState>) returns (same: bool)
      requires Valid()
      modifies this`latest
      ensures Valid()
      ensures same <==> Of(book, address) != [] && f.digest(LastState(Of(book, address))) == f.digest(state)
      ensures latest - {address} == old(latest) - {address}
    {
      hide IsLog, AccountsOk, Normal, Sorted, Sound;
      var digest: u64;
      if address in latest {
        digest := latest[address];
      } else {
        AccountIsLog(address);
        SlotsAgree(f, ReadLog(address), Entries(address), Of(book, address));
        if Entries(address) == [] {
          return false;
        }
        ghost var vs := Of(book, address);
        LookupByPosition(vs, U64_MAX, |vs| - 1);
        var newest := VersionAt(address, U64_MAX);
        digest := f.digest(newest.value.value.state);
        latest := latest[address := digest];
      }
      same := digest == f.digest(state);
    }

    /** Replace one account's log with an encoded chain. */
    method RewriteBytes(address: Address, bytes: seq<byte>, ghost es: seq<Entry>, ghost vs: seq<Version>)
      requires Valid() && Named(f, address) && IsLog(f, bytes, es, vs)
      modifies this`files, this`index, this`latest, this`book
      ensures Valid() && book == old(book)[address := vs]
      ensures files == old(files)[address := bytes] && latest == old(latest) - {address}
    {
      hide IsLog, AccountsOk, DigestsOk, Normal, Sorted, Sound;
      var found := IndexOf(bytes);
      IsLogIndex(f, bytes, es, vs);
      IndexIsUnique(bytes, found, es);
      AccountsPut(f, files, index, book, address, bytes, es, vs);
      DigestsDrop(f, latest, book, address, vs);
      files := files[address := bytes];
      index := index[address := found];
      latest := latest - {address};
      book := book[address := vs];
    }

    /** Append an already-encoded chain that stands on its own. */
    method AppendChainBytes(address: Address, body: seq<byte>, ghost es: seq<Entry>, ghost ws: seq<Version>)
      returns (n: nat)
      requires Valid() && Named(f, address) && IsLog(f, body, es, ws)
      requires var vs := Of(book, address); vs == [] || ws == [] || vs[|vs| - 1].slot < ws[0].slot
      modifies this`files, this`index, this`latest, this`book
      ensures Valid() && book == old(book)[address := Of(old(book), address) + ws]
      ensures n == |ws|
      ensures files == old(files)[address := LogIn(old(files), address) + body] && latest == old(latest) - {address}
    {
      hide IsLog, AccountsOk, DigestsOk, Normal, Sorted, Sound;
      AccountIsLog(address);
      var base := ReadLog(address);
      ghost var vs := Of(book, address);
      var added := IndexOf(body);
      IsLogIndex(f, body, es, ws);
      IndexIsUnique(body, added, es);
      AppendChain(f, base, Entries(address), vs, body, es, ws);
      var entries := Entries(address) + ShiftAll(added, |base|);
      AccountsPut(f, files, index, book, address, base + body, entries, vs + ws);
      DigestsDrop(f, latest, book, address, vs + ws);
      files := files[address := base + body];
      index := index[address := entries];
      latest := latest - {address};
      book := book[address := vs + ws];
      n := |added|;
    }

    /** Apply retention to one account; how many versions it dropped. */
    method ThinAccount(address: Address, now: u64) returns (dropping: nat)
      requires Valid() && address in book
      modifies this`files, this`index, this`latest, this`book
      ensures Valid() && book == old(book)[address := Thinned(old(book)[address], now)]
      ensures dropping == |old(book)[address]| - |book[address]|
      ensures files - {address} == old(files) - {address} && (dropping == 0 ==> files == old(files))
    {
      hide IsLog, Normal, Sorted, Sound, DigestsOk, Survives;
      assert AccountOk(f, address, files, index, book);
      ghost var vs := book[address];
      var bytes := ReadLog(address);
      var entries := IndexOf(bytes);
      IsLogIndex(f, bytes, index[address], vs);
      IndexIsUnique(bytes, entries, index[address]);
      SlotsAgree(f, bytes, entries, vs);
      var slots := seq(|entries|, i requires 0 <= i < |entries| => entries[i].slot);
      assert slots == Slots(vs);
      SlotsSorted(vs);
      var keep := KeptSlots(slots, now);
      dropping := CountDropped(keep);
      assert keep == Marks(vs, now);
      ThinByCount(vs, now);
      if dropping > 0 {
        var w := new ChainWriter(f);
        var pick := (i: nat, slot: u64) => i < |keep| && keep[i];
        var copied := CopyVersions(f, bytes, pick, w, entries, vs);
        assert Picked(vs, pick) == keep;
        RewriteBytes(address, w.out, w.entries, w.versions);
      }
    }

    /** Apply the two-tier retention as of `now`; how many versions were dropped. */
    method Thin(now: u64) returns (dropped: nat)
      requires Valid()
      modifies this`files, this`index, this`latest, this`book, this`coverage
      ensures Valid() && book == ThinAll(old(book), now)
      ensures dropped == Total(old(book)) - Total(book)
      ensures coverage == SpansFrom(old(coverage), KeepFrom(now))
    {
      hide Valid, Thinned, Total;
      ghost var before := book;
      KeysAgree();
      var left := index.Keys;
      dropped := 0;
      while left != {}
        invariant Valid() && left <= before.Keys && book.Keys == before.Keys
        invariant forall a :: a in before ==>
                    book[a] == if a in left then before[a] else Thinned(before[a], now)
        invariant dropped == Total(before) - Total(book)
        invariant coverage == old(coverage)
        decreases |left|
      {
        var a :| a in left;
        TotalPut(book, a, Thinned(book[a], now));
        var dropping := ThinAccount(a, now);
        dropped := dropped + dropping;
        left := left - {a};
      }
      assert book == ThinAll(before, now);
      RetainSpans(KeepFrom(now));
    }

    method RetainSpans(floor: u64)
      requires Valid()
      modifies this`coverage
      ensures Valid() && coverage == SpansFrom(old(coverage), floor)
    {
      hide IsLog, AccountsOk, DigestsOk, Sorted, Sound;
      SpansFromNormal(coverage, floor);
      coverage := SpansFrom(coverage, floor);
    }

    /** Every version observed after `since`, one self-contained chain per account,
        and the polled spans after it. */
    method ExportSince(since: u64) returns (pack: seq<byte>, ghost items: seq<Packed>)
      requires Valid()
      ensures pack == EncodePack(items)
      ensures ExportOf(f, book, coverage, since, items)
    {
      hide Valid, IsLog, Newer, Sound, ExportsAccounts, EncodePack, EncodeEntry, EncodeSpans, ClipSpans;
      KeysAgree();
      NothingExported(f, book, since);
      var left := index.Keys;
      pack, items := [], [];
      while left != {}
        invariant left <= book.Keys
        invariant pack == EncodePack(items)
        invariant ExportsAccounts(f, book, since, left, items)
        decreases |left|
      {
        var a :| a in left;
        var body, count, packed := ExportAccount(a, since);
        if count > 0 {
          PackSnoc(items, packed);
          pack := pack + EncodeEntry(a, body, []);
          ExportsOneMore(f, book, since, left, items, packed);
          items := items + [packed];
        } else {
          ExportsNothingOf(f, book, since, left, items, a);
        }
        left := left - {a};
      }
      var spans := ClipSpans(coverage, since);
      if spans != [] {
        PackSnoc(items, Polled(spans, []));
        assert EntryBody(Polled(spans, [])) == EncodeSpans(spans);
        pack := pack + EncodeEntry(COVERAGE_ENTRY, EncodeSpans(spans), []);
        items := items + [Polled(spans, [])];
      }
    }

    method ExportAccount(address: Address, since: u64)
      returns (body: seq<byte>, count: nat, ghost packed: Packed)
      requires Valid() && address in book
      ensures count == |Newer(book[address], since)|
      ensures packed == Account(address, body, Newer(book[address], since))
      ensures exists es :: IsLog(f, body, es, packed.versions)
    {
      hide IsLog, Normal, Sorted, Sound, DigestsOk;
      assert AccountOk(f, address, files, index, book);
      ghost var vs := book[address];
      var w := new ChainWriter(f);
      var pick := (i: nat, slot: u64) => slot > since;
      IsLogIndex(f, ReadLog(address), index[address], vs);
      var copied := CopyVersions(f, ReadLog(address), pick, w, index[address], vs);
      assert Picked(vs, pick) == seq(|vs|, i requires 0 <= i < |vs| => vs[i].slot > since);
      body, count := w.out, w.count;
      packed := Account(address, body, w.versions);
      assert IsLog(f, body, w.entries, packed.versions);
    }

    /** Take one account's chain in: appended as bytes when it only adds newer
        versions, merged otherwise; how many versions that added. */
    method ImportChain(address: Address, body: seq<byte>, ghost ws: seq<Version>) returns (added: nat)
      requires Valid() && Named(f, address) && exists es :: IsLog(f, body, es, ws)
      modifies this`files, this`index, this`latest, this`book
      ensures Valid() && book == old(book)[address := Import(Of(old(book), address), ws)]
      ensures added == |book[address]| - |Of(old(book), address)|
      ensures files - {address} == old(files) - {address}
    {
      hide Valid, IsLog, Merge;
      AccountIsLog(address);
      var entries := Entries(address);
      ghost var vs := Of(book, address);
      SlotsAgree(f, ReadLog(address), entries, vs);
      ghost var es :| IsLog(f, body, es, ws);
      var incoming := IndexOf(body);
      IsLogIndex(f, body, es, ws);
      IndexIsUnique(body, incoming, es);
      SlotsAgree(f, body, es, ws);
      if entries == [] || (incoming != [] && entries[|entries| - 1].slot < incoming[0].slot) {
        added := AppendChainBytes(address, body, es, ws);
        return;
      }
      SoundStore();
      var w := new ChainWriter(f);
      IsLogIndex(f, ReadLog(address), entries, vs);
      var merged := MergeChains(f, ReadLog(address), body, w, entries, vs, es, ws);
      added := merged.value;
      RewriteBytes(address, w.out, w.entries, w.versions);
    }

    /** Merge polled spans into this store's coverage. */
    method MergeCoverage(spans: seq<Span>)
      requires Valid() && forall i :: 0 <= i < |spans| ==> Proper(spans[i])
      modifies this`coverage
      ensures Valid() && Least(coverage, old(coverage) + spans)
    {
      hide IsLog, AccountsOk, DigestsOk, Sorted, Sound, CoversAll;
      coverage := MergeSpans(coverage + spans);
    }

    /** Take in one entry of a pack; how many versions that added. */
    method ImportEntry(address: Address, body: seq<byte>, ghost p: Packed) returns (added: nat)
      requires Valid() && Importable(f, p) && address == EntryAddress(p) && body == EntryBody(p)
      modifies this
      ensures Valid() && rounds == old(rounds)
      ensures book == ImportOne(old(book), p)
      ensures added == Total(book) - Total(old(book))
      ensures if p.Polled? then Least(coverage, old(coverage) + p.spans) else coverage == old(coverage)
      ensures watched == old(watched) + NameOf(p)
    {
      hide Valid, IsLog, Import, Least, Total;
      if address == COVERAGE_ENTRY {
        var spans := ReadSpans(body, p.spans, p.ragged);
        MergeCoverage(spans);
        added := 0;
      } else {
        assert p.Account? && body == p.body;
        Watch(address);
        TotalPut(book, address, Import(Of(book, address), p.versions));
        added := ImportChain(address, body, p.versions);
      }
    }

    /** Take in a pack; how many versions that added. Entries are taken in as they are
        read, so one that cannot be read stops the import with all before it taken in. */
    method ImportPack(pack: seq<byte>, ghost items: seq<Packed>, ghost tail: seq<byte>)
      returns (r: Result<nat, StoreError>)
      requires Valid() && pack == EncodePack(items) + tail && Broken(f, tail)
      requires forall i :: 0 <= i < |items| ==> Importable(f, items[i])
      modifies this
      ensures Valid() && book == ImportAll(old(book), items)
      ensures if tail == [] then r == Ok(Total(book) - Total(old(book)))
              else r.Err? && r.error == FrameAt(f, tail, 0).error
      ensures Least(coverage, old(coverage) + PolledSpans(items))
      ensures rounds == old(rounds)
      ensures watched == old(watched) + PackedNames(items)
    {
      hide Valid, Importable, ImportOne, ImportAll, Least, Total, EncodeEntry, EncodePack, Broken, FrameAt, NameOf,
           PackedNames, PolledSpans;
      NothingImported(book);
      ghost var k := 0;
      var at, added := 0, 0;
      var failure: Option<StoreError> := None;
      CoverageIsLeast();
      assert pack[0..] == pack && items[0..] == items;
      assert items[..0] == [] && old(coverage) + PolledSpans([]) == old(coverage);
      while at < |pack| && failure.None?
        invariant Valid() && k <= |items| && at <= |pack|
        invariant pack[at..] == EncodePack(items[k..]) + tail
        invariant book == ImportAll(old(book), items[..k])
        invariant added == Total(book) - Total(old(book))
        invariant Least(coverage, old(coverage) + PolledSpans(items[..k]))
        invariant watched == old(watched) + PackedNames(items[..k])
        invariant rounds == old(rounds)
        invariant failure.Some? ==> k == |items| && tail != [] && FrameAt(f, tail, 0) == Err(failure.value)
        decreases |pack| - at, failure.None?
      {
        NextFrame(f, pack, at, items, k, tail);
        var frame := FrameAt(f, pack, at);
        if frame.Err? {
          failure := Some(frame.error);
        } else {
          ghost var p, part := items[k], coverage;
          PrefixGrows(old(book), items, k);
          at := frame.value.next;
          var n := ImportEntry(frame.value.address, frame.value.body, p);
          added := added + n;
          SpansSoFar(part, old(coverage), items, k, coverage);
          k := k + 1;
        }
      }
      PackEnds(f, items, k, tail);
      assert items[..|items|] == items;
      r := if failure.Some? then Err(failure.value) else Ok(added);
    }

    /** Note a polling round, and trim the rounds to the dense window. */
    method NoteRound(slot: u64)
      requires Valid()
      modifies this`rounds, this`coverage
      ensures Valid()
      ensures rounds == Rounds.NoteRound(old(rounds), slot)
      ensures coverage == NoteSpan(old(coverage), slot)
    {
      hide IsLog, AccountsOk, DigestsOk, Sound;
      if rounds == [] || slot > rounds[|rounds| - 1] {
        NoteRoundTrims(rounds, slot);
        RoundsStaySorted(rounds, slot);
        rounds := rounds + [slot];
        var floor := DenseFrom(slot);
        if rounds[0] < floor {
          rounds := AtOrAfter(rounds, floor);
        }
      }
      if coverage == [] || coverage[|coverage| - 1].last < slot {
        NoteIsNormal(coverage, slot);
      }
      var n := |coverage|;
      if n > 0 && coverage[n - 1].last >= slot {
        return;
      } else if n > 0 && slot - coverage[n - 1].last <= MAX_COVERAGE_GAP {
        coverage := coverage[..n - 1] + [Span(coverage[n - 1].first, slot)];
      } else {
        coverage := coverage + [Span(slot, slot)];
      }
    }

    /** Whether `slot` lies in a polled span, within the dense window of the newest. */
    method Covers(slot: u64) returns (r: bool)
      requires Valid()
      ensures r <==> Covered(coverage, slot)
    {
      var n := |coverage|;
      if n == 0 || slot + DENSE_SLOTS < coverage[n - 1].last {
        return false;
      }
      for i := 0 to n
        invariant forall k :: 0 <= k < i ==> !Coverage.Holds(coverage[k], Span(slot, slot))
      {
        if coverage[i].first <= slot <= coverage[i].last {
          assert Coverage.Holds(coverage[i], Span(slot, slot));
          return true;
        }
      }
      return false;
    }

    /** Whether a held polling round lies in `[from, to]`. */
    method RoundWithin(from: u64, to: u64) returns (r: bool)
      requires Valid()
      ensures r <==> exists k :: 0 <= k < |rounds| && from <= rounds[k] <= to
    {
      r := RoundIn(rounds, from, to);
    }

    lemma SoundStore()
      requires Valid()
      ensures Sound(f)
    {
    }

    lemma CoverageIsLeast()
      requires Valid()
      ensures Least(coverage, coverage)
    {
      NormalIsItsOwnMerge(coverage);
    }

    lemma KeysAgree()
      requires Valid()
      ensures index.Keys == files.Keys == book.Keys
    {
    }

    method Watch(address: Address)
      modifies this`watched
      ensures watched == old(watched) + {address}
      ensures old(Valid()) ==> Valid()
    {
      watched := watched + {address};
    }
  }

  lemma SlotsAgree(f: Foreign, file: seq<byte>, es: seq<Entry>, vs: seq<Version>)
    requires IsLog(f, file, es, vs)
    ensures |es| == |vs| && Ascending(vs)
    ensures forall i :: 0 <= i < |es| ==> es[i].slot == vs[i].slot && KindFits(es[i].kind, vs[i])
  {
    forall i | 0 <= i < |es|
      ensures es[i].slot == vs[i].slot && KindFits(es[i].kind, vs[i])
    {
      LogEntry(f, file, es, vs, i);
    }
  }

  /** How many diffs the log ends with. */
  method TrailingDiffs(entries: seq<Entry>) returns (n: nat)
    ensures n == DiffRun(entries, |entries|)
  {
    n := 0;
    while n < |entries| && BaseKind(entries[|entries| - 1 - n].kind) == DIFF
      invariant n <= |entries|
      invariant n + DiffRun(entries, |entries| - n) == DiffRun(entries, |entries|)
    {
      n := n + 1;
    }
  }

  lemma SlotsSorted(vs: seq<Version>)
    requires Ascending(vs)
    ensures Sorted(Slots(vs))
  {
  }

  /** How many marks are off. */
  method CountDropped(keep: seq<bool>) returns (n: nat)
    ensures n == |keep| - CountKept(keep)
  {
    n := 0;
    for i := 0 to |keep|
      invariant n == i - CountKept(keep[..i])
    {
      assert keep[..i + 1][..i] == keep[..i];
      if !keep[i] {
        n := n + 1;
      }
    }
    assert keep[..|keep|] == keep;
  }

  lemma {:induction false} CountKeptAll(keep: seq<bool>)
    ensures CountKept(keep) == |keep| <==> forall i :: 0 <= i < |keep| ==> keep[i]
  {
    if keep != [] {
      var n := |keep| - 1;
      CountKeptAll(keep[..n]);
      if forall i :: 0 <= i < n ==> keep[..n][i] {
        assert forall i :: 0 <= i < n ==> keep[i] == keep[..n][i];
      } else {
        var i :| 0 <= i < n && !keep[..n][i];
        assert !keep[i];
      }
    }
  }

  /** A thinning drops the versions it does not mark, and rewrites nothing when
      there are none. */
  lemma ThinByCount(vs: seq<Version>, now: u64)
    ensures |vs| - CountKept(Marks(vs, now)) == |vs| - |Thinned(vs, now)|
    ensures CountKept(Marks(vs, now)) == |vs| <==> AllSurvive(vs, now)
  {
    hide Survives;
    CountKeptAll(Marks(vs, now));
    RewriteLength(vs, Marks(vs, now));
  }

  /** The spans that reach `floor`. */
  function SpansFrom(cov: seq<Span>, floor: u64): seq<Span> {
    if cov == [] then []
    else if cov[0].last >= floor then [cov[0]] + SpansFrom(cov[1..], floor)
    else SpansFrom(cov[1..], floor)
  }

  lemma {:induction false} SpansFromMembers(cov: seq<Span>, floor: u64, s: Span)
    ensures s in SpansFrom(cov, floor) <==> s in cov && s.last >= floor
  {
    if cov != [] {
      SpansFromMembers(cov[1..], floor, s);
      assert cov == [cov[0]] + cov[1..];
    }
  }

  lemma {:induction false} SpansFromNormal(cov: seq<Span>, floor: u64)
    requires Normal(cov)
    ensures Normal(SpansFrom(cov, floor))
  {
    if cov != [] {
      SpansFromNormal(cov[1..], floor);
      var rest := SpansFrom(cov[1..], floor);
      forall i | 0 <= i < |rest|
        ensures cov[0].last + MAX_COVERAGE_GAP < rest[i].first
      {
        SpansFromMembers(cov[1..], floor, rest[i]);
        assert rest[i] in rest;
        var k :| 0 <= k < |cov[1..]| && cov[1..][k] == rest[i];
      }
    }
  }

  // ---------------------------------------------------------------------------
  // Packs

  predicate Covered(cov: seq<Span>, slot: u64) {
    cov != [] && cov[|cov| - 1].last <= slot + DENSE_SLOTS && Contains(cov, slot)
  }

  /** The polled spans after `since`. */
  function ClipSpans(cov: seq<Span>, since: u64): seq<Span> {
    if cov == [] then []
    else if cov[0].last > since then
      [Span(if cov[0].first > since then cov[0].first else since + 1, cov[0].last)] + ClipSpans(cov[1..], since)
    else ClipSpans(cov[1..], since)
  }

  ghost predicate ExportsAccount(f: Foreign, book: Book, since: u64, p: Packed) {
    && p.Account? && p.address in book
    && p.versions == Newer(book[p.address], since) && p.versions != []
    && exists es :: IsLog(f, p.body, es, p.versions)
  }

  /** The accounts outside `left` with newer versions, each once. */
  ghost predicate ExportsAccounts(f: Foreign, book: Book, since: u64, left: set<Address>, items: seq<Packed>) {
    && (forall i :: 0 <= i < |items| ==> ExportsAccount(f, book, since, items[i]))
    && (forall i :: 0 <= i < |items| ==> items[i].address !in left)
    && (forall i, j :: 0 <= i < j < |items| ==> items[i].address != items[j].address)
    && (forall a :: a in book && a !in left && Newer(book[a], since) != [] ==> Exported(items, a))
  }

  predicate Exported(items: seq<Packed>, a: Address) {
    exists i :: 0 <= i < |items| && items[i].Account? && items[i].address == a
  }

  /** What a pack exported after `since` holds: every account with newer versions
      once, then the clipped coverage if there is any. */
  ghost predicate ExportOf(f: Foreign, book: Book, cov: seq<Span>, since: u64, items: seq<Packed>) {
    var spans := ClipSpans(cov, since);
    if spans == [] then ExportsAccounts(f, book, since, {}, items)
    else
      && items != [] && items[|items| - 1] == Polled(spans, [])
      && ExportsAccounts(f, book, since, {}, items[..|items| - 1])
  }

  lemma NothingExported(f: Foreign, book: Book, since: u64)
    ensures ExportsAccounts(f, book, since, book.Keys, []) && EncodePack([]) == []
  {
  }

  lemma ExportsOneMore(f: Foreign, book: Book, since: u64, left: set<Address>, items: seq<Packed>, p: Packed)
    requires ExportsAccounts(f, book, since, left, items)
    requires p.Account? && p.address in left && ExportsAccount(f, book, since, p)
    ensures ExportsAccounts(f, book, since, left - {p.address}, items + [p])
  {
    hide ExportsAccount, Newer;
    var all := items + [p];
    forall a | a in book && a !in left - {p.address} && Newer(book[a], since) != []
      ensures Exported(all, a)
    {
      if a == p.address {
        assert all[|items|].Account? && all[|items|].address == a;
      } else {
        var i :| 0 <= i < |items| && items[i].Account? && items[i].address == a;
        assert all[i].Account? && all[i].address == a;
      }
    }
  }

  lemma ExportsNothingOf(f: Foreign, book: Book, since: u64, left: set<Address>, items: seq<Packed>, a: Address)
    requires ExportsAccounts(f, book, since, left, items)
    requires a in book && Newer(book[a], since) == []
    ensures ExportsAccounts(f, book, since, left - {a}, items)
  {
    hide ExportsAccount, Newer;
  }

  /** Every span a pack carries. */
  function PolledSpans(ps: seq<Packed>): seq<Span> {
    if ps == [] then []
    else PolledSpans(ps[..|ps| - 1]) + if ps[|ps| - 1].Polled? then ps[|ps| - 1].spans else []
  }

  /** Every address a pack carries. */
  function PackedNames(ps: seq<Packed>): set<Address> {
    if ps == [] then {} else PackedNames(ps[..|ps| - 1]) + NameOf(ps[|ps| - 1])
  }

  function NameOf(p: Packed): set<Address> {
    if p.Account? then {p.address} else {}
  }

  lemma PrefixGrows(book: Book, ps: seq<Packed>, k: nat)
    requires k < |ps|
    ensures ImportAll(book, ps[..k + 1]) == ImportOne(ImportAll(book, ps[..k]), ps[k])
    ensures PackedNames(ps[..k + 1]) == PackedNames(ps[..k]) + NameOf(ps[k])
  {
    hide ImportOne;
    assert ps[..k + 1][..k] == ps[..k];
  }

  /** Coverage merged entry by entry is merged all at once. */
  lemma SpansSoFar(part: seq<Span>, start: seq<Span>, ps: seq<Packed>, k: nat, whole: seq<Span>)
    requires k < |ps| && Least(part, start + PolledSpans(ps[..k]))
    requires if ps[k].Polled? then Least(whole, part + ps[k].spans) else whole == part
    ensures Least(whole, start + PolledSpans(ps[..k + 1]))
  {
    hide Least;
    assert ps[..k + 1][..k] == ps[..k];
    var before := PolledSpans(ps[..k]);
    if ps[k].Polled? {
      LeastInBatches(part, start + before, ps[k].spans, whole);
      assert start + before + ps[k].spans == start + (before + ps[k].spans);
    } else {
      assert before + [] == before;
    }
  }

  lemma PackFront(ps: seq<Packed>, k: nat)
    requires k <= |ps|
    ensures k == |ps| <==> |EncodePack(ps[k..])| == 0
    ensures k < |ps| ==>
              EncodePack(ps[k..])
              == EncodeEntry(EntryAddress(ps[k]), EntryBody(ps[k]), EncodePack(ps[k + 1..]))
  {
    if k < |ps| {
      assert ps[k..][1..] == ps[k + 1..];
    }
  }

  lemma NothingImported(book: Book)
    ensures ImportAll(book, []) == book && PackedNames([]) == {} && PolledSpans([]) == []
  {
  }

  /** At each entry of a pack that entry is read, and past the last the rest is not. */
  lemma NextFrame(f: Foreign, pack: seq<byte>, at: nat, items: seq<Packed>, k: nat, tail: seq<byte>)
    requires at < |pack| && k <= |items| && Broken(f, tail)
    requires forall i :: 0 <= i < |items| ==> Importable(f, items[i])
    requires pack[at..] == EncodePack(items[k..]) + tail
    ensures if k == |items| then tail != [] && FrameAt(f, pack, at).Err? && FrameAt(f, pack, at) == FrameAt(f, tail, 0)
            else var next := at + |EncodeEntry(EntryAddress(items[k]), EntryBody(items[k]), [])|;
                 && FrameAt(f, pack, at) == Ok(Frame(EntryAddress(items[k]), EntryBody(items[k]), next))
                 && next <= |pack| && pack[next..] == EncodePack(items[k + 1..]) + tail
  {
    hide Importable, EncodeEntry, FrameAt;
    PackFront(items, k);
    if k == |items| {
      assert EncodePack(items[k..]) + tail == tail;
      FrameIsLocal(f, pack, at, tail);
    } else {
      var p, rest := items[k], EncodePack(items[k + 1..]);
      EntryThenMore(EntryAddress(p), EntryBody(p), rest, tail);
      EntryAt(f, pack, at, p, rest + tail);
    }
  }

  lemma EntryAt(f: Foreign, pack: seq<byte>, at: nat, p: Packed, rest: seq<byte>)
    requires Importable(f, p)
    requires at <= |pack| && pack[at..] == EncodeEntry(EntryAddress(p), EntryBody(p), rest)
    ensures var next := at + |EncodeEntry(EntryAddress(p), EntryBody(p), [])|;
            && FrameAt(f, pack, at) == Ok(Frame(EntryAddress(p), EntryBody(p), next))
            && next <= |pack| && pack[next..] == rest
  {
    hide IsLog, EncodeEntry, GetStr, GetU32;
    EntryReads(f, pack, at, EntryAddress(p), EntryBody(p), rest);
  }

  lemma PackEnds(f: Foreign, items: seq<Packed>, k: nat, tail: seq<byte>)
    requires k <= |items|
    ensures |EncodePack(items[k..]) + tail| == 0 <==> k == |items| && tail == []
  {
    PackFront(items, k);
  }

  lemma RoundsStaySorted(rounds: seq<u64>, slot: u64)
    requires Sorted(rounds) && (rounds == [] || rounds[|rounds| - 1] < slot)
    ensures Sorted(rounds + [slot]) && Sorted(AtOrAfter(rounds + [slot], DenseFrom(slot)))
  {
    OneMoreSorted(rounds, slot);
    AtOrAfterSorted(rounds + [slot], DenseFrom(slot));
  }

  lemma OneMoreSorted(rounds: seq<u64>, slot: u64)
    requires Sorted(rounds) && (rounds == [] || rounds[|rounds| - 1] < slot)
    ensures Sorted(rounds + [slot])
  {
  }
}
