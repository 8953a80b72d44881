/** Nothing below a committed offset is ever missing from the index, in any run of the pipeline. */
module PipelineSafety {
  import opened Prelude
  import opened PackFormat
  import opened Pipeline

  // ------------------------------------------------------------------------------ what a row says of a message

  /** Every column but the location is the message's own. */
  ghost predicate RowMatches(env: Env, row: Row, m: Message)
  {
    && env.parse(m.raw).Some?
    && SortKey(row) == (m.source, m.receivedAt, m.id)
    && row.sha256 == env.sha256(m.raw)
    && row.metadata == env.parse(m.raw).value.(playedAt := row.metadata.playedAt)
    && row.metadata.playedAt == if m.playedAt.Some? then m.playedAt else env.parse(m.raw).value.playedAt
  }

  /** The location reads back exactly the raw bytes, and the protobuf location exactly the protobuf when there is a
      non-empty one; otherwise the columns say that there is none. */
  ghost predicate ReadsBack(env: Env, bytes: Bytes, row: Row, m: Message)
  {
    && Read(env.codec, bytes, row.storage) == Success(m.raw)
    && match m.pb
       case Some(pb) =>
         if pb == [] then PbFromColumns(row) == None
         else PbFromColumns(row).Some? && Read(env.codec, bytes, PbFromColumns(row).value) == Success(pb)
       case None => PbFromColumns(row) == None
  }

  lemma ReadExtends(codec: Codec, file: Bytes, longer: Bytes, at: PackLocation)
    requires file <= longer && Read(codec, file, at).Success?
    ensures Read(codec, longer, at) == Read(codec, file, at)
  {
    assert longer[..|file|] == file;
    assert longer[at.offset..at.offset + at.compressedSize] == file[at.offset..at.offset + at.compressedSize];
  }

  lemma ReadsBackExtends(env: Env, bytes: Bytes, longer: Bytes, row: Row, m: Message)
    requires bytes <= longer && ReadsBack(env, bytes, row, m)
    ensures ReadsBack(env, longer, row, m)
  {
    ReadExtends(env.codec, bytes, longer, row.storage);
    if PbFromColumns(row).Some? {
      ReadExtends(env.codec, bytes, longer, PbFromColumns(row).value);
    }
  }

  /** The row built while a message is appended describes it. */
  lemma NewRowReadsBack(env: Env, key: string, bytes: Bytes, m: Message)
    requires Lawful(env.codec) && EntryFits(env, Readable(m)) && env.parse(m.raw).Some?
    ensures RowMatches(env, RowFor(env, key, |bytes|, m), m)
    ensures ReadsBack(env, bytes + Frames(env, m), RowFor(env, key, |bytes|, m), m)
  {
    hide EntryBytes, Read;
    var row := RowFor(env, key, |bytes|, m);
    var raw := EntryBytes(env.codec, m.id, m.raw);
    var file := bytes + Frames(env, m);
    assert file[|bytes|..|bytes| + |raw|] == raw;
    ReadBackOne(env.codec, file, |bytes|, m.id, m.raw, key);
    if m.pb.Some? && m.pb.value != [] {
      var pb := EntryBytes(env.codec, m.id, m.pb.value);
      assert file[|bytes| + |raw|..|bytes| + |raw| + |pb|] == pb;
      ReadBackOne(env.codec, file, |bytes| + |raw|, m.id, m.pb.value, key);
    }
  }

  // ------------------------------------------------------------------------------------------ what a batch holds

  /** A row of a batch is that of one parseable entry among those appended, and reads back from the batch's bytes. */
  ghost predicate RowOfBatch(env: Env, key: string, part: nat, base: nat, bytes: Bytes, entries: seq<Entry>, st: Stored)
  {
    && st.part == part && base <= st.offset < base + |entries|
    && Parses(env, entries[st.offset - base])
    && RowMatches(env, st.row, entries[st.offset - base].message)
    && st.row.storage.packKey == key
    && ReadsBack(env, bytes, st.row, entries[st.offset - base].message)
  }

  ghost predicate Covers(rows: seq<Stored>, part: nat, offset: nat)
  {
    exists i :: 0 <= i < |rows| && rows[i].part == part && rows[i].offset == offset
  }

  lemma CoversMore(rows: seq<Stored>, more: seq<Stored>, part: nat, offset: nat)
    ensures Covers(rows, part, offset) || Covers(more, part, offset) ==> Covers(rows + more, part, offset)
  {
    if Covers(rows, part, offset) {
      var i :| 0 <= i < |rows| && rows[i].part == part && rows[i].offset == offset;
      assert (rows + more)[i] == rows[i];
    } else if Covers(more, part, offset) {
      var i :| 0 <= i < |more| && more[i].part == part && more[i].offset == offset;
      assert (rows + more)[|rows| + i] == more[i];
    }
  }

  ghost predicate RowsOfBatch(env: Env, key: string, part: nat, base: nat, batch: Batch, entries: seq<Entry>)
  {
    forall r :: 0 <= r < |batch.rows| ==>
      RowOfBatch(env, key, part, base, batch.bytes, entries, batch.rows[r])
  }

  /** Every row of a batch describes an entry that was appended, and reads back. */
  lemma {:induction false} BatchIsSound(env: Env, key: string, part: nat, base: nat, entries: seq<Entry>)
    requires Lawful(env.codec) && AllEntriesFit(env, entries)
    ensures RowsOfBatch(env, key, part, base, AppendAll(env, key, part, base, EMPTY_BATCH, entries), entries)
  {
    if entries != [] {
      var n := |entries| - 1;
      BatchIsSound(env, key, part, base, entries[..n]);
      assert entries[..n] + [entries[n]] == entries;
      BatchGrows(env, key, part, base, AppendAll(env, key, part, base, EMPTY_BATCH, entries[..n]),
                 entries[..n], entries[n]);
    }
  }

  /** Every parseable entry that was appended has its row in the batch. */
  lemma {:induction false} BatchIsComplete(env: Env, key: string, part: nat, base: nat, entries: seq<Entry>, i: nat)
    requires AllEntriesFit(env, entries) && i < |entries|
    requires entries[i].Readable? && env.parse(entries[i].message.raw).Some?
    ensures Covers(AppendAll(env, key, part, base, EMPTY_BATCH, entries).rows, part, base + i)
  {
    var n := |entries| - 1;
    var before := AppendAll(env, key, part, base, EMPTY_BATCH, entries[..n]);
    var batch := AppendAll(env, key, part, base, EMPTY_BATCH, entries);
    if i < n {
      BatchIsComplete(env, key, part, base, entries[..n], i);
      CoversMore(before.rows, batch.rows[|before.rows|..], part, base + i);
      assert before.rows + batch.rows[|before.rows|..] == batch.rows;
    } else {
      assert batch.rows[|before.rows|].offset == base + n;
    }
  }

  lemma BatchGrows(env: Env, key: string, part: nat, base: nat, batch: Batch, before: seq<Entry>, entry: Entry)
    requires Lawful(env.codec) && EntryFits(env, entry)
    requires RowsOfBatch(env, key, part, base, batch, before)
    ensures RowsOfBatch(env, key, part, base, AppendEntry(env, key, part, base + |before|, batch, entry),
                        before + [entry])
  {
    var grown := AppendEntry(env, key, part, base + |before|, batch, entry);
    if Parses(env, entry) {
      NewRowReadsBack(env, key, batch.bytes, entry.message);
      forall r | 0 <= r < |grown.rows|
        ensures RowOfBatch(env, key, part, base, grown.bytes, before + [entry], grown.rows[r])
      {
        if r < |batch.rows| {
          assert RowOfBatch(env, key, part, base, batch.bytes, before, batch.rows[r]);
          ReadsBackExtends(env, batch.bytes, grown.bytes, batch.rows[r].row,
                           before[batch.rows[r].offset - base].message);
        }
      }
    } else {
      forall r | 0 <= r < |grown.rows|
        ensures RowOfBatch(env, key, part, base, grown.bytes, before + [entry], grown.rows[r])
      {
        assert RowOfBatch(env, key, part, base, batch.bytes, before, batch.rows[r]);
      }
    }
  }

  /** Appending in two goes is appending in one. */
  lemma {:induction false} AppendAllSplits(env: Env, key: string, part: nat, base: nat, batch: Batch,
                                           first: seq<Entry>, second: seq<Entry>)
    requires AllEntriesFit(env, first) && AllEntriesFit(env, second) && AllEntriesFit(env, first + second)
    ensures AppendAll(env, key, part, base, batch, first + second)
         == AppendAll(env, key, part, base + |first|, AppendAll(env, key, part, base, batch, first), second)
  {
    if second == [] {
      assert first + second == first;
    } else {
      var n := |second| - 1;
      assert (first + second)[..|first| + n] == first + second[..n];
      AppendAllSplits(env, key, part, base, batch, first, second[..n]);
    }
  }

  /** Entries none of which can be read add nothing. */
  lemma {:induction false} UnreadableAddNothing(env: Env, key: string, part: nat, base: nat, batch: Batch,
                                                entries: seq<Entry>)
    requires AllEntriesFit(env, entries) && !AnyReadable(entries)
    ensures AppendAll(env, key, part, base, batch, entries) == batch
  {
    if entries != [] {
      var n := |entries| - 1;
      UnreadableAddNothing(env, key, part, base, batch, entries[..n]);
      assert !entries[n].Readable?;
    }
  }
}
