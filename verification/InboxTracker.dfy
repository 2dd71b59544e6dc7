/** The inbox tracker over its key-value database, with the batch metadata cache and the loops that
    read batches through the multiplexer. Each operation is proved to do what the Tracker module
    says of its state. */
module InboxTracker {
  import opened Types
  import opened SequencerMessages
  import opened Multiplexer
  import opened MultiplexerProperties
  import opened Streamer
  import opened Tracker

  /** Delayed messages are found under the current key or, failing that, a legacy one. */
  ghost predicate IsDelayedPrefix(current: map<nat, Entry>, legacy: map<nat, Entry>, count: nat) {
    forall i: nat :: i in current || i in legacy <==> i < count
  }

  ghost function DelayedContents(current: map<nat, Entry>, legacy: map<nat, Entry>, count: nat): (r: seq<Entry>)
    requires IsDelayedPrefix(current, legacy, count)
    ensures |r| == count && forall i :: 0 <= i < count ==> r[i] == if i in current then current[i] else legacy[i]
  {
    seq(count, i requires 0 <= i < count => if i in current then current[i] else legacy[i])
  }

  ghost predicate IsCacheOf<T>(cache: map<nat, T>, db: map<nat, T>) {
    forall b :: b in cache ==> b in db && cache[b] == db[b]
  }

  function KeepBelow<T>(m: map<nat, T>, count: nat): map<nat, T> {
    map i | i in m && i < count :: m[i]
  }

  lemma ContentsBelow<T>(m: map<nat, T>, count: nat, newCount: nat)
    requires IsPrefix(m, count) && newCount <= count
    ensures IsPrefix(KeepBelow(m, newCount), newCount)
    ensures Contents(KeepBelow(m, newCount), newCount) == Contents(m, count)[..newCount]
  {
  }

  lemma CacheBelow<T>(cache: map<nat, T>, db: map<nat, T>, count: nat)
    requires IsCacheOf(cache, db)
    ensures IsCacheOf(KeepBelow(cache, count), db)
    ensures IsCacheOf(KeepBelow(cache, count), KeepBelow(db, count))
  {
  }

  /** The keys after keeping the old messages below a position and writing new ones from it on. */
  lemma DelayedKeysRewritten(current: map<nat, Entry>, legacy: map<nat, Entry>, count: nat, writes: map<nat, Entry>,
                             pos: nat, end: nat)
    requires IsDelayedPrefix(current, legacy, count) && pos <= count && pos <= end
    requires forall i: nat :: i in writes <==> pos <= i < end
    ensures IsDelayedPrefix(KeepBelow(current, end) + writes, KeepBelow(legacy, end), end)
  {
    var current1, legacy1 := KeepBelow(current, end) + writes, KeepBelow(legacy, end);
    forall i: nat ensures i in current1 || i in legacy1 <==> i < end {
      assert i < pos ==> (i in current || i in legacy);
    }
  }

  lemma DelayedEntryRewritten(current: map<nat, Entry>, legacy: map<nat, Entry>, count: nat, writes: map<nat, Entry>,
                              end: nat, i: nat)
    requires IsDelayedPrefix(current, legacy, count)
    requires IsDelayedPrefix(KeepBelow(current, end) + writes, KeepBelow(legacy, end), end)
    requires i < end && (i !in writes ==> i < count)
    ensures DelayedContents(KeepBelow(current, end) + writes, KeepBelow(legacy, end), end)[i] ==
            if i in writes then writes[i] else DelayedContents(current, legacy, count)[i]
  {
  }

  lemma DelayedRewritten(current: map<nat, Entry>, legacy: map<nat, Entry>, count: nat, writes: map<nat, Entry>,
                         pos: nat, entries: seq<Entry>)
    requires IsDelayedPrefix(current, legacy, count) && pos <= count
    requires forall i: nat :: i in writes <==> pos <= i < pos + |entries|
    requires forall i :: 0 <= i < |entries| ==> writes[pos + i] == entries[i]
    ensures var end := pos + |entries|;
            var current1, legacy1 := KeepBelow(current, end) + writes, KeepBelow(legacy, end);
            && IsDelayedPrefix(current1, legacy1, end)
            && DelayedContents(current1, legacy1, end) == DelayedContents(current, legacy, count)[..pos] + entries
  {
    hide IsDelayedPrefix, DelayedContents, KeepBelow;
    var end := pos + |entries|;
    DelayedKeysRewritten(current, legacy, count, writes, pos, end);
    var current1, legacy1 := KeepBelow(current, end) + writes, KeepBelow(legacy, end);
    var before, after := DelayedContents(current, legacy, count), DelayedContents(current1, legacy1, end);
    forall i | 0 <= i < end ensures after[i] == (before[..pos] + entries)[i] {
      DelayedEntryRewritten(current, legacy, count, writes, end, i);
      assert i >= pos ==> writes[pos + (i - pos)] == entries[i - pos];
    }
  }

  /** Writes items under consecutive keys. */
  function Put<T>(m: map<nat, T>, pos: nat, items: seq<T>): map<nat, T>
    decreases |items|
  {
    if items == [] then m else Put(m[pos := items[0]], pos + 1, items[1..])
  }

  lemma {:induction false} PutAt<T>(m: map<nat, T>, pos: nat, items: seq<T>, i: nat)
    ensures i in Put(m, pos, items) <==> i in m || pos <= i < pos + |items|
    ensures i in Put(m, pos, items) ==>
            Put(m, pos, items)[i] == if pos <= i < pos + |items| then items[i - pos] else m[i]
    decreases |items|
  {
    if items != [] { PutAt(m[pos := items[0]], pos + 1, items[1..], i); }
  }

  lemma PutContents<T>(m: map<nat, T>, count: nat, pos: nat, items: seq<T>)
    requires IsPrefix(m, count) && pos <= count
    ensures var m1, end := Put(KeepBelow(m, pos), pos, items), pos + |items|;
            IsPrefix(m1, end) && Contents(m1, end) == Contents(m, count)[..pos] + items
  {
    hide Put;
    var kept, m1, end := KeepBelow(m, pos), Put(KeepBelow(m, pos), pos, items), pos + |items|;
    var expected := Contents(m, count)[..pos] + items;
    forall i: nat ensures (i in m1 <==> i < end) && (i < end ==> m1[i] == expected[i]) {
      PutAt(kept, pos, items, i);
    }
    ContentsAre(m1, expected);
  }

  lemma ContentsAre<T>(m: map<nat, T>, expected: seq<T>)
    requires forall i: nat :: (i in m <==> i < |expected|) && (i < |expected| ==> m[i] == expected[i])
    ensures IsPrefix(m, |expected|) && Contents(m, |expected|) == expected
  {
  }

  lemma PutCache<T>(cache: map<nat, T>, db: map<nat, T>, pos: nat, items: seq<T>)
    requires IsCacheOf(cache, db)
    ensures IsCacheOf(Put(cache, pos, items), Put(db, pos, items))
  {
    var cache1, db1 := Put(cache, pos, items), Put(db, pos, items);
    forall i: nat | i in cache1 ensures i in db1 && cache1[i] == db1[i] {
      PutAt(cache, pos, items, i);
      PutAt(db, pos, items, i);
    }
  }

  class DbInboxTracker {
    const dec: Decoder
    const streamer: TransactionStreamer
    var currentDelayed: map<nat, Entry>
    var legacyDelayed: map<nat, Entry>
    var delayedCount: nat
    var metaDb: map<nat, BatchMeta>
    var batchCount: nat
    var index: map<nat, nat>
    var metaCache: map<nat, BatchMeta>

    /** Keys are exact prefixes of their counts, and the cache never differs from the database. */
    ghost predicate Valid()
      reads this, streamer
    {
      && streamer.Valid()
      && IsDelayedPrefix(currentDelayed, legacyDelayed, delayedCount)
      && IsPrefix(metaDb, batchCount)
      && IsCacheOf(metaCache, metaDb)
    }

    ghost function View(): Node
      requires Valid()
      reads this, streamer
    {
      Node(DelayedContents(currentDelayed, legacyDelayed, delayedCount), Contents(metaDb, batchCount), index,
          streamer.State())
    }

    constructor (dec: Decoder, streamer: TransactionStreamer)
      requires streamer.Valid() && streamer.State() == GENESIS.stream
      ensures Valid() && View() == GENESIS && this.streamer == streamer && this.dec == dec
    {
      this.dec, this.streamer := dec, streamer;
      currentDelayed, legacyDelayed, delayedCount := map[], map[], 0;
      metaDb, batchCount, index, metaCache := map[], 0, map[], map[];
    }

    /** The cache may forget an entry at any time. */
    method Evict(b: nat)
      requires Valid()
      modifies this`metaCache
      ensures Valid() && View() == old(View())
    {
      metaCache := metaCache - {b};
    }

    method GetDelayedAcc(i: nat) returns (acc: Option<Acc>)
      requires Valid()
      ensures acc == if i < delayedCount then Some(View().delayed[i].acc) else None
    {
      if i in currentDelayed {
        return Some(currentDelayed[i].acc);
      }
      if i in legacyDelayed {
        return Some(legacyDelayed[i].acc);
      }
      return None;
    }

    method GetBatchMetadata(b: nat) returns (meta: Option<BatchMeta>)
      requires Valid()
      modifies this`metaCache
      ensures Valid() && View() == old(View())
      ensures meta == if b < batchCount then Some(View().metas[b]) else None
    {
      if b in metaCache {
        return Some(metaCache[b]);
      }
      if b !in metaDb {
        return None;
      }
      metaCache := metaCache[b := metaDb[b]];
      return Some(metaDb[b]);
    }

    /** The metadata before a batch; the first batch follows an empty one. */
    method GetPrevMetadata(pos: nat) returns (meta: Option<BatchMeta>)
      requires Valid()
      modifies this`metaCache
      ensures Valid() && View() == old(View())
      ensures meta == if pos <= batchCount then Some(PrevMeta(View().metas, pos)) else None
    {
      if pos == 0 {
        return Some(BatchMeta(0, 0, 0));
      }
      meta := GetBatchMetadata(pos - 1);
    }

    /** Writes a reorganization of batches together with a new delayed inbox. */
    method DropBatchesAndWrite(newCurrent: map<nat, Entry>, newLegacy: map<nat, Entry>, newDelayedCount: nat,
                               count: nat, newIndex: map<nat, nat>, execOk: bool) returns (ok: bool)
      requires Valid() && IsDelayedPrefix(newCurrent, newLegacy, newDelayedCount)
      modifies this, streamer
      ensures Valid()
      ensures var n := old(View()).(delayed := DelayedContents(newCurrent, newLegacy, newDelayedCount));
              var r := if count > |n.metas| then None else DropBatches(n, count, newIndex, execOk);
              ok == r.Some? && View() == if ok then r.value else old(View())
    {
      hide Truncate;
      ghost var n := View();
      var prev := GetPrevMetadata(count);
      CacheBelow(metaCache, metaDb, count);
      if prev.Some? { ContentsBelow(metaDb, batchCount, count); }
      hide IsCacheOf;
      hide KeepBelow;
      hide IsPrefix;
      hide Contents;
      hide IsDelayedPrefix;
      hide DelayedContents;
      metaCache := KeepBelow(metaCache, count);
      if prev.None? {
        return false;
      }
      var err := streamer.Reorg(prev.value.messageCount, execOk);
      if err.Some? {
        return false;
      }
      currentDelayed, legacyDelayed, delayedCount := newCurrent, newLegacy, newDelayedCount;
      index, metaDb, batchCount := newIndex, KeepBelow(metaDb, count), count;
      return true;
    }

    /** The first key of the index above a count, as an ascending iteration would find it. */
    method FirstKeyAbove(count: nat) returns (key: Option<nat>)
      ensures key.None? <==> forall d :: d in index ==> d <= count
      ensures key.Some? ==> IsNextKey(index, count, key.value)
    {
      var keys: set<nat> := set d | d in index && d > count;
      var rest := keys;
      key := None;
      while rest != {}
        invariant rest <= keys
        invariant key.None? ==> rest == keys
        invariant key.Some? ==> key.value in keys && forall d :: d in keys && d !in rest ==> key.value <= d
        decreases rest
      {
        var d: nat :| d in rest;
        rest := rest - {d};
        if key.None? || d < key.value {
          key := Some(d);
        }
      }
      assert forall d :: d in index && d > count ==> d in keys;
    }

    /** Moves the delayed count, forwards or backwards. */
    method SetDelayedCount(newCurrent: map<nat, Entry>, newLegacy: map<nat, Entry>, newCount: nat, canReorg: bool,
                           execOk: bool) returns (ok: bool)
      requires Valid() && IsDelayedPrefix(newCurrent, newLegacy, newCount)
      modifies this, streamer
      ensures Valid()
      ensures var r := SetDelayed(old(View()), DelayedContents(newCurrent, newLegacy, newCount), canReorg, execOk);
              ok == r.Some? && View() == if ok then r.value else old(View())
    {
      var key := FirstKeyAbove(newCount);
      if key.None? {
        currentDelayed, legacyDelayed, delayedCount := newCurrent, newLegacy, newCount;
        return true;
      }
      if !canReorg {
        return false;
      }
      NextKeyUnique(index, newCount, key.value);
      ok := DropBatchesAndWrite(newCurrent, newLegacy, newCount, index[key.value], KeysUpTo(index, newCount), execOk);
    }

    /** Keeps the delayed messages below a position, and writes new ones from it on. */
    method WriteDelayed(pos: nat, writes: map<nat, Entry>, n: nat, ghost entries: seq<Entry>, canReorg: bool,
                        execOk: bool) returns (ok: bool)
      requires Valid() && pos <= delayedCount && n == |entries|
      requires forall i: nat :: i in writes <==> pos <= i < pos + n
      requires forall i :: 0 <= i < n ==> writes[pos + i] == entries[i]
      modifies this, streamer
      ensures Valid()
      ensures var r := SetDelayed(old(View()), old(View()).delayed[..pos] + entries, canReorg, execOk);
              ok == r.Some? && View() == if ok then r.value else old(View())
    {
      DelayedRewritten(currentDelayed, legacyDelayed, delayedCount, writes, pos, entries);
      hide *;
      var end := pos + n;
      ok := SetDelayedCount(KeepBelow(currentDelayed, end) + writes, KeepBelow(legacyDelayed, end), end, canReorg,
          execOk);
    }

    method CheckChain(acc: Acc, pos: nat, msgs: seq<DelayedMessage>) returns (writes: Option<map<nat, Entry>>)
      ensures writes.Some? <==> Continues(acc, pos, msgs)
      ensures writes.Some? ==> forall i: nat :: i in writes.value <==> pos <= i < pos + |msgs|
      ensures writes.Some? ==> forall i :: 0 <= i < |msgs| ==> writes.value[pos + i] == Entries(msgs)[i]
    {
      var next, batch: map<nat, Entry> := acc, map[];
      for i := 0 to |msgs|
        invariant Continues(acc, pos, msgs) == Continues(next, pos + i, msgs[i..])
        invariant forall j: nat :: j in batch <==> pos <= j < pos + i
        invariant forall j :: 0 <= j < i ==> batch[pos + j] == Entries(msgs)[j]
      {
        var m := msgs[i];
        assert msgs[i..][0] == m && msgs[i..][1..] == msgs[i + 1..];
        if m.message.header.requestId != Some(pos + i) {
          return None;
        }
        if next != m.before {
          return None;
        }
        next := AfterAcc(m.before, m.message);
        batch := batch[pos + i := Entry(next, m.message)];
      }
      return Some(batch);
    }

    method AddDelayedMessages(msgs: seq<DelayedMessage>, hardReorg: bool, execOk: bool) returns (ok: bool)
      requires Valid()
      modifies this, streamer
      ensures Valid()
      ensures var r := AddDelayed(old(View()), msgs, hardReorg, execOk);
              ok == r.Some? && View() == if ok then r.value else old(View())
    {
      hide Continues;
      hide SetDelayed;
      ghost var n := View();
      if |msgs| == 0 {
        return true;
      }
      if msgs[0].message.header.requestId.None? {
        return false;
      }
      var pos := msgs[0].message.header.requestId.value;
      if !hardReorg {
        var have := GetDelayedAcc(pos + |msgs| - 1);
        var last := msgs[|msgs| - 1];
        if have == Some(AfterAcc(last.before, last.message)) {
          return true;
        }
      }
      var acc := ZeroAcc;
      if pos > 0 {
        var have := GetDelayedAcc(pos - 1);
        if have.None? {
          return false;
        }
        acc := have.value;
      }
      var writes := CheckChain(acc, pos, msgs);
      if writes.None? {
        return false;
      }
      assert AddDelayed(n, msgs, hardReorg, execOk) == SetDelayed(n, n.delayed[..pos] + Entries(msgs), true, execOk);
      hide AddDelayed;
      hide Entries;
      ok := WriteDelayed(pos, writes.value, |msgs|, Entries(msgs), true, execOk);
    }

    method ReorgDelayed(count: nat, canReorg: bool, execOk: bool) returns (ok: bool)
      requires Valid()
      modifies this, streamer
      ensures Valid()
      ensures var r := ReorgDelayedTo(old(View()), count, canReorg, execOk);
              ok == r.Some? && View() == if ok then r.value else old(View())
    {
      if count == delayedCount {
        return true;
      }
      if count > delayedCount {
        return false;
      }
      assert View().delayed[..count] + [] == View().delayed[..count];
      ok := WriteDelayed(count, map[], 0, [], canReorg, execOk);
    }

    method ReorgBatches(count: nat, execOk: bool) returns (ok: bool)
      requires Valid()
      modifies this, streamer
      ensures Valid()
      ensures var r := ReorgBatchesTo(old(View()), count, execOk);
              ok == r.Some? && View() == if ok then r.value else old(View())
    {
      var prev := GetPrevMetadata(count);
      if prev.None? {
        return false;
      }
      ok := DropBatchesAndWrite(currentDelayed, legacyDelayed, delayedCount, count,
                                KeysUpTo(index, prev.value.delayedCount), execOk);
    }

    /** Whether the batches are consecutive, chain on, and agree with the delayed inbox. */
    method CheckBatches(pos: nat, acc: nat, batches: seq<Batch>) returns (ok: bool)
      requires Valid()
      ensures ok == Acceptable(View().delayed, pos, acc, batches)
    {
      var next := acc;
      ghost var delayed := View().delayed;
      for i := 0 to |batches|
        invariant Acceptable(delayed, pos, acc, batches) == Acceptable(delayed, pos + i, next, batches[i..])
      {
        var b := batches[i];
        assert batches[i..][0] == b && batches[i..][1..] == batches[i + 1..];
        if b.sequenceNumber != pos + i || next != b.beforeAcc {
          return false;
        }
        if b.afterDelayedCount > 0 {
          var have := GetDelayedAcc(b.afterDelayedCount - 1);
          if have != Some(b.afterDelayedAcc) {
            return false;
          }
        }
        next := b.afterAcc;
      }
      return true;
    }

    /** Pops every message of the batches, noting the message count at the end of each. Termination
        holds for any bytes; the result is the decoding of batches whose counts do not go backwards. */
    method ReadBatches(delayed: seq<Entry>, from: u64, count: nat, batches: seq<Batch>)
      returns (r: Option<(seq<MessageWithMeta>, map<nat, nat>)>)
      requires forall b <- batches :: b.afterDelayedCount <= |delayed|
      ensures r.None? ==> !Parses(dec, from, batches)
      ensures r.Some? ==> forall i :: 0 <= i < |batches| ==> Parse(dec, SerializeBatch(batches[i])).Ok?
      ensures r.Some? ==> forall i :: 0 <= i < |batches| ==> i in r.value.1
      ensures r.Some? && Parses(dec, from, batches) ==>
        && r.value.0 == Flatten(MessagesOf(dec, delayed, from, batches))
        && CountsEnd(r.value.1, count, MessagesOf(dec, delayed, from, batches), |batches|)
    {
      hide Parse;
      hide MessagesOf;
      hide Pop;
      hide Parses;
      hide ReadSoFar;
      hide Coherent;
      hide Remaining;
      hide SerializeBatch;
      var world := WorldOf(dec, delayed, batches);
      ghost var sound := Parses(dec, from, batches);
      ghost var parts := if sound then MessagesOf(dec, delayed, from, batches) else [];
      ghost var part: seq<MessageWithMeta> := [];
      if sound { StartReading(dec, delayed, from, batches, 0); }
      var mux := new InboxMultiplexer(world, 0, 0, from);
      FreshIsCoherent(world, mux.State());
      var msgs: seq<MessageWithMeta>, counts: map<nat, nat> := [], map[];
      while mux.inboxPos < |batches|
        invariant mux.world == world && fresh(mux) && mux.inboxPos <= |batches|
        invariant Coherent(world, mux.State())
        invariant forall i :: 0 <= i < mux.inboxPos ==> Parse(dec, SerializeBatch(batches[i])).Ok?
        invariant forall i :: 0 <= i < mux.inboxPos ==> i in counts
        invariant sound ==> ReadSoFar(dec, delayed, batches, parts, mux.State(), msgs, part)
        invariant sound ==> CountsEnd(counts, count, parts, mux.inboxPos)
        decreases |batches| - mux.inboxPos, Remaining(world, mux.State())
      {
        var batch := mux.inboxPos;
        ghost var m := mux.State();
        var popped := mux.PopMessage();
        if sound { ReadOne(dec, delayed, from, batches, parts, m, msgs, part); }
        if popped.Err? {
          return None;
        }
        PopProgress(world, m);
        PopParses(world, m);
        msgs := msgs + [popped.value];
        counts := counts[batch := count + |msgs|];
        part := if mux.inboxPos > batch then [] else part + [popped.value];
      }
      if sound { AllRead(dec, delayed, batches, parts, mux.State(), msgs, part); }
      return Some((msgs, counts));
    }

    /** The metadata and index entries of the batches, unless a delayed count goes backwards. */
    method MakeMetas(from: u64, counts: map<nat, nat>, ghost count: nat, ghost parts: seq<seq<MessageWithMeta>>,
                     batches: seq<Batch>, index0: map<nat, nat>)
      returns (r: Option<(seq<BatchMeta>, map<nat, nat>)>)
      requires forall i :: 0 <= i < |batches| ==> i in counts
      ensures r.Some? <==> NonDecreasing(from, batches)
      ensures r.Some? ==> r.value.1 == NewIndex(index0, from, batches)
      ensures r.Some? && |parts| == |batches| && CountsEnd(counts, count, parts, |batches|) ==>
              r.value.0 == NewMetas(count, batches, parts)
    {
      var metas: seq<BatchMeta>, index1: map<nat, nat>, last: u64 := [], index0, from;
      for i := 0 to |batches|
        invariant |metas| == i
        invariant forall j :: 0 <= j < i ==>
            metas[j] == BatchMeta(batches[j].afterAcc, counts[j], batches[j].afterDelayedCount)
        invariant NonDecreasing(from, batches) == NonDecreasing(last, batches[i..])
        invariant NewIndex(index0, from, batches) == NewIndex(index1, last, batches[i..])
      {
        var b := batches[i];
        assert batches[i..][0] == b && batches[i..][1..] == batches[i + 1..];
        if b.afterDelayedCount < last {
          return None;
        }
        metas := metas + [BatchMeta(b.afterAcc, counts[i], b.afterDelayedCount)];
        if b.afterDelayedCount > last {
          index1 := index1[b.afterDelayedCount := b.sequenceNumber];
        }
        last := b.afterDelayedCount;
      }
      if |parts| == |batches| && CountsEnd(counts, count, parts, |batches|) {
        forall i | 0 <= i < |batches| ensures metas[i] == NewMetas(count, batches, parts)[i] {
          MetaAt(count, batches, parts, i);
        }
      }
      return Some((metas, index1));
    }

    /** Writes the batches after their messages were added to the log. */
    method WriteBatches(pos: nat, metas: seq<BatchMeta>, newIndex: map<nat, nat>)
      requires Valid() && pos <= batchCount
      modifies this
      ensures Valid()
      ensures View() == old(View()).(metas := old(View()).metas[..pos] + metas, index := newIndex)
    {
      PutContents(metaDb, batchCount, pos, metas);
      CacheBelow(metaCache, metaDb, pos);
      PutCache(KeepBelow(metaCache, pos), KeepBelow(metaDb, pos), pos, metas);
      hide *;
      metaCache := Put(KeepBelow(metaCache, pos), pos, metas);
      metaDb, batchCount, index := Put(KeepBelow(metaDb, pos), pos, metas), pos + |metas|, newIndex;
    }

    method AddSequencerBatches(batches: seq<Batch>, execOk: bool) returns (ok: bool)
      requires Valid()
      modifies this, streamer
      ensures Valid()
      ensures var r := AddBatches(old(View()), dec, batches, execOk);
              ok == r.Some? && View() == if ok then r.value else old(View())
    {
      hide Acceptable;
      hide Parses;
      hide MessagesOf;
      hide AddConfirmed;
      hide Flatten;
      hide NewMetas;
      hide NewIndex;
      hide NonDecreasing;
      hide CountsEnd;
      hide Parse;
      hide IsCacheOf;
      hide IsPrefix;
      hide Contents;
      hide DelayedContents;
      hide IsDelayedPrefix;
      if |batches| == 0 {
        return true;
      }
      ghost var n := View();
      var pos := batches[0].sequenceNumber;
      var prev := GetPrevMetadata(pos);
      if prev.None? {
        return false;
      }
      var acceptable := CheckBatches(pos, prev.value.acc, batches);
      if !acceptable {
        return false;
      }
      AcceptableIsBounded(n.delayed, pos, prev.value.acc, batches);
      var delayed := ReadDelayed();
      var from, count := prev.value.delayedCount, prev.value.messageCount;
      var read := ReadBatches(delayed, from, count, batches);
      if read.None? {
        return false;
      }
      ghost var parts := if Parses(dec, from, batches) then MessagesOf(dec, delayed, from, batches) else [];
      var metas := MakeMetas(from, read.value.1, count, parts, batches, KeysUpTo(index, from));
      if metas.None? {
        BackwardsNeverParses(dec, from, batches);
        return false;
      }
      AllParse(dec, from, batches);
      var err := streamer.AddMessages(count, true, read.value.0, execOk);
      if err.Some? {
        return false;
      }
      WriteBatches(pos, metas.value.0, metas.value.1);
      return true;
    }

    /** The delayed inbox as the multiplexer's backend serves it. */
    method ReadDelayed() returns (delayed: seq<Entry>)
      requires Valid()
      ensures delayed == View().delayed
    {
      delayed := [];
      for i := 0 to delayedCount
        invariant |delayed| == i && forall j :: 0 <= j < i ==> delayed[j] == View().delayed[j]
      {
        delayed := delayed + [if i in currentDelayed then currentDelayed[i] else legacyDelayed[i]];
      }
    }
  }

  predicate NonDecreasing(from: u64, batches: seq<Batch>)
    decreases |batches|
  {
    batches != [] ==> from <= batches[0].afterDelayedCount && NonDecreasing(batches[0].afterDelayedCount, batches[1..])
  }

  lemma {:induction false} BackwardsNeverParses(dec: Decoder, from: u64, batches: seq<Batch>)
    ensures Parses(dec, from, batches) ==> NonDecreasing(from, batches)
    decreases |batches|
  {
    if batches != [] { BackwardsNeverParses(dec, batches[0].afterDelayedCount, batches[1..]); }
  }

  lemma {:induction false} AllParse(dec: Decoder, from: u64, batches: seq<Batch>)
    requires NonDecreasing(from, batches)
    requires forall i :: 0 <= i < |batches| ==> Parse(dec, SerializeBatch(batches[i])).Ok?
    ensures Parses(dec, from, batches)
    decreases |batches|
  {
    if batches != [] {
      assert forall i :: 0 <= i < |batches[1..]| ==> batches[1..][i] == batches[i + 1];
      AllParse(dec, batches[0].afterDelayedCount, batches[1..]);
    }
  }

  lemma {:induction false} MetaAt(count: nat, batches: seq<Batch>, parts: seq<seq<MessageWithMeta>>, i: nat)
    requires |batches| == |parts| && i < |batches|
    ensures NewMetas(count, batches, parts)[i] ==
            BatchMeta(batches[i].afterAcc, count + |Flatten(parts[..i + 1])|, batches[i].afterDelayedCount)
    decreases i
  {
    assert parts[..i + 1][0] == parts[0] && parts[..i + 1][1..] == parts[1..][..i];
    if i == 0 {
      assert parts[1..][..0] == [];
    } else {
      MetaAt(count + |parts[0]|, batches[1..], parts[1..], i - 1);
    }
  }

  ghost predicate CountsEnd(counts: map<nat, nat>, count: nat, parts: seq<seq<MessageWithMeta>>, n: nat) {
    n <= |parts| && forall i :: 0 <= i < n ==> i in counts && counts[i] == count + |Flatten(parts[..i + 1])|
  }

  /** A pop that succeeds was given a batch that parses. */
  lemma PopParses(w: World, m: Mux)
    requires Coherent(w, m) && Pop(w, m).1.Ok?
    ensures m.inboxPos < |w.inbox| && Parse(w.decoder, w.inbox[m.inboxPos]).Ok?
  {
    hide Parse;
  }

  lemma {:induction false} FlattenAppended(parts: seq<seq<MessageWithMeta>>, last: seq<MessageWithMeta>)
    ensures Flatten(parts + [last]) == Flatten(parts) + last
  {
    if parts == [] {
      assert Flatten([last]) == last + Flatten([]);
    } else {
      assert (parts + [last])[1..] == parts[1..] + [last];
      FlattenAppended(parts[1..], last);
    }
  }

  /** The delayed count at which a batch starts. */
  function StartCount(from: u64, batches: seq<Batch>, b: nat): u64
    requires b <= |batches|
  {
    if b == 0 then from else batches[b - 1].afterDelayedCount
  }

  lemma {:induction false} PartAt(dec: Decoder, delayed: seq<Entry>, from: u64, batches: seq<Batch>, b: nat)
    requires Parses(dec, from, batches) && b < |batches|
    requires forall x <- batches :: x.afterDelayedCount <= |delayed|
    ensures Parse(dec, SerializeBatch(batches[b])).Ok?
    ensures var sm := Parse(dec, SerializeBatch(batches[b])).value;
            && sm.afterDelayed == batches[b].afterDelayedCount
            && StartCount(from, batches, b) <= sm.afterDelayed
            && Readable(WorldOf(dec, delayed, []), StartCount(from, batches, b), sm.afterDelayed)
            && MessagesOf(dec, delayed, from, batches)[b] ==
               Decode(WorldOf(dec, delayed, []), sm, sm.segments, 0, 0, StartCount(from, batches, b))
    decreases b
  {
    hide Parse;
    hide SerializeBatch;
    ParsedDelayedCount(dec, batches[0]);
    if b > 0 {
      hide Decode;
      PartAt(dec, delayed, batches[0].afterDelayedCount, batches[1..], b - 1);
      assert StartCount(from, batches, b) == StartCount(batches[0].afterDelayedCount, batches[1..], b - 1);
    }
  }

  /** The messages popped so far, and those of the current batch still to come, make up its part. */
  ghost predicate ReadSoFar(dec: Decoder, delayed: seq<Entry>, batches: seq<Batch>, parts: seq<seq<MessageWithMeta>>,
                            m: Mux, msgs: seq<MessageWithMeta>, part: seq<MessageWithMeta>)
  {
    && |parts| == |batches|
    && m.inboxPos <= |batches|
    && msgs == Flatten(parts[..m.inboxPos]) + part
    && if m.inboxPos == |batches| then part == []
       else
         var w := WorldOf(dec, delayed, batches);
         var parsed := Parse(dec, SerializeBatch(batches[m.inboxPos]));
         && parsed.Ok?
         && Reading(w, m, parsed.value)
         && part + Pending(w, m, parsed.value) == parts[m.inboxPos]
  }

  lemma AllRead(dec: Decoder, delayed: seq<Entry>, batches: seq<Batch>, parts: seq<seq<MessageWithMeta>>,
                m: Mux, msgs: seq<MessageWithMeta>, part: seq<MessageWithMeta>)
    requires ReadSoFar(dec, delayed, batches, parts, m, msgs, part) && m.inboxPos == |batches|
    ensures msgs == Flatten(parts)
  {
    assert parts[..|batches|] == parts && Flatten(parts) + [] == Flatten(parts);
  }

  lemma FreshIsCoherent(w: World, m: Mux)
    requires m.cached.None? && m.cursor == ORIGIN
    ensures Coherent(w, m)
  {
  }

  lemma StartReading(dec: Decoder, delayed: seq<Entry>, from: u64, batches: seq<Batch>, b: nat)
    requires Parses(dec, from, batches) && b <= |batches|
    requires forall x <- batches :: x.afterDelayedCount <= |delayed|
    ensures var parts := MessagesOf(dec, delayed, from, batches);
            ReadSoFar(dec, delayed, batches, parts, Mux(b, 0, StartCount(from, batches, b), None, ORIGIN),
                      Flatten(parts[..b]), [])
  {
    var parts := MessagesOf(dec, delayed, from, batches);
    assert Flatten(parts[..b]) + [] == Flatten(parts[..b]);
    if b < |batches| {
      PartAt(dec, delayed, from, batches, b);
      var w := WorldOf(dec, delayed, batches);
      var d := StartCount(from, batches, b);
      var sm := Parse(dec, SerializeBatch(batches[b])).value;
      hide Parse;
      assert Reading(w, Mux(b, 0, d, None, ORIGIN), sm);
      PendingAtStart(w, b, sm, d);
      DecodeIsLocal(WorldOf(dec, delayed, []), w, sm, sm.segments, 0, 0, d);
      hide Decode;
      assert [] + parts[b] == parts[b];
    }
  }

  lemma ReadOne(dec: Decoder, delayed: seq<Entry>, from: u64, batches: seq<Batch>, parts: seq<seq<MessageWithMeta>>,
                m: Mux, msgs: seq<MessageWithMeta>, part: seq<MessageWithMeta>)
    requires Parses(dec, from, batches) && forall x <- batches :: x.afterDelayedCount <= |delayed|
    requires parts == MessagesOf(dec, delayed, from, batches)
    requires ReadSoFar(dec, delayed, batches, parts, m, msgs, part) && m.inboxPos < |batches|
    ensures var (m1, r) := Pop(WorldOf(dec, delayed, batches), m);
            && r.Ok?
            && ReadSoFar(dec, delayed, batches, parts, m1, msgs + [r.value],
                         if m1.inboxPos > m.inboxPos then [] else part + [r.value])
            && (m1.inboxPos > m.inboxPos ==>
                 m1.inboxPos == m.inboxPos + 1 && msgs + [r.value] == Flatten(parts[..m.inboxPos + 1]))
  {
    hide Parse;
    hide Pop;
    hide MessagesOf;
    hide Parses;
    hide Decode;
    hide SerializeBatch;
    hide Scan;
    hide Coherent;
    hide Readable;
    var w, sm := WorldOf(dec, delayed, batches), Parse(dec, SerializeBatch(batches[m.inboxPos])).value;
    PopTakesPending(w, m, sm);
    PartContinues(Flatten(parts[..m.inboxPos]), part, Pending(w, m, sm));
    hide Pending;
    hide Reading;
    hide Flatten;
    if |Pending(w, m, sm)| == 1 {
      var b := m.inboxPos;
      PartAt(dec, delayed, from, batches, b);
      assert parts[..b + 1] == parts[..b] + [parts[b]];
      FlattenAppended(parts[..b], parts[b]);
      StartReading(dec, delayed, from, batches, b + 1);
      hide *;
    }
  }

  lemma PartContinues(done: seq<MessageWithMeta>, part: seq<MessageWithMeta>, pending: seq<MessageWithMeta>)
    requires pending != []
    ensures done + part + [pending[0]] == done + (part + [pending[0]])
    ensures part + pending == part + [pending[0]] + pending[1..]
    ensures |pending| == 1 ==> done + part + [pending[0]] == done + (part + pending)
  {
    assert pending == [pending[0]] + pending[1..];
  }

  lemma NextKeyUnique(index: map<nat, nat>, count: nat, d: nat)
    requires IsNextKey(index, count, d)
    ensures NextKey(index, count) == d
  {
    var e := NextKey(index, count);
    assert IsNextKey(index, count, e);
  }
}
