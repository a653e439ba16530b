/** PMTiles directories: the decoder of internal/pmtiles/archive.go and the encoder of
    internal/pmtiles/pmtilestest/build.go. */
module Directory {
  import opened Bits
  import opened Options
  import opened Varint

  datatype Entry = Entry(tileId: nat, offset: nat, length: nat, runLength: nat)

  /** An entry whose fields are 64-bit words. */
  predicate IsEntry(e: Entry) {
    IsWord(e.tileId) && IsWord(e.offset) && IsWord(e.length) && IsWord(e.runLength)
  }

  // ----- The encoder -----

  /** Identifiers as differences from the one before. */
  function Deltas(list: seq<Entry>, last: nat): seq<nat> {
    if list == [] then [] else [U64(list[0].tileId - last)] + Deltas(list[1..], list[0].tileId)
  }

  function Runs(list: seq<Entry>): seq<nat> {
    if list == [] then [] else [list[0].runLength] + Runs(list[1..])
  }

  function Lengths(list: seq<Entry>): seq<nat> {
    if list == [] then [] else [list[0].length] + Lengths(list[1..])
  }

  /** Where an entry's data would have to start to follow the entry before it. */
  function Next(e: Entry): nat {
    U64(e.offset + e.length)
  }

  /** Offsets: zero for an entry that follows the one before it, one more than the offset otherwise. */
  function OffsetCode(list: seq<Entry>, i: nat): nat
    requires i < |list|
  {
    if i > 0 && list[i].offset == Next(list[i - 1]) then 0 else U64(list[i].offset + 1)
  }

  function OffsetCodes(list: seq<Entry>, n: nat): seq<nat>
    requires n <= |list|
  {
    if n == 0 then [] else OffsetCodes(list, n - 1) + [OffsetCode(list, n - 1)]
  }

  function Serialized(list: seq<Entry>): Bytes {
    Encoded(|list|) + EncodedAll(Deltas(list, 0)) + EncodedAll(Runs(list))
    + EncodedAll(Lengths(list)) + EncodedAll(OffsetCodes(list, |list|))
  }

  lemma {:induction false} DeltasAt(list: seq<Entry>, last: nat, i: nat)
    requires i < |list|
    ensures |Deltas(list, last)| == |list|
    ensures Deltas(list, last)[i] == U64(list[i].tileId - (if i == 0 then last else list[i - 1].tileId))
  {
    if i > 0 {
      DeltasAt(list[1..], list[0].tileId, i - 1);
    } else if |list| > 1 {
      DeltasAt(list[1..], list[0].tileId, 0);
    }
  }

  lemma {:induction false} ColumnsAt(list: seq<Entry>, i: nat)
    requires i < |list|
    ensures |Runs(list)| == |Lengths(list)| == |list|
    ensures Runs(list)[i] == list[i].runLength && Lengths(list)[i] == list[i].length
  {
    if |list| > 1 {
      ColumnsAt(list[1..], if i > 0 then i - 1 else 0);
    }
  }

  lemma {:induction false} OffsetCodesAt(list: seq<Entry>, n: nat, i: nat)
    requires i < n <= |list|
    ensures |OffsetCodes(list, n)| == n && OffsetCodes(list, n)[i] == OffsetCode(list, i)
  {
    if n > 1 {
      OffsetCodesAt(list, n - 1, if i < n - 1 then i else 0);
    }
  }

  /** Writes a directory: the count, then the four columns. */
  method Serialize(list: seq<Entry>) returns (buf: Bytes)
    ensures buf == Serialized(list)
  {
    hide Deltas, Runs, Lengths, OffsetCodes, EncodedAll, Encoded;
    ColumnLengths(list);
    buf := AppendVarint([], |list|);
    assert buf == Encoded(|list|);
    buf := PutIds(list, buf);
    buf := PutSizes(list, buf);
    buf := PutOffsets(list, buf);
  }

  method PutIds(list: seq<Entry>, start: Bytes) returns (buf: Bytes)
    ensures buf == start + EncodedAll(Deltas(list, 0))
  {
    hide Deltas;
    var last: nat := 0;
    ghost var deltas := Deltas(list, 0);
    ColumnLengths(list);
    buf := start;
    for i := 0 to |list|
      invariant buf == start + EncodedAll(deltas[..i])
      invariant last == if i == 0 then 0 else list[i - 1].tileId
    {
      DeltasAt(list, 0, i);
      ColumnStep(deltas, i);
      buf := AppendVarint(buf, U64(list[i].tileId - last));
      last := list[i].tileId;
    }
    assert deltas[..|list|] == deltas;
  }

  method PutSizes(list: seq<Entry>, start: Bytes) returns (buf: Bytes)
    ensures buf == start + EncodedAll(Runs(list)) + EncodedAll(Lengths(list))
  {
    hide Runs, Lengths;
    ghost var runs, lengths := Runs(list), Lengths(list);
    ColumnLengths(list);
    buf := start;
    for i := 0 to |list|
      invariant buf == start + EncodedAll(runs[..i])
    {
      ColumnsAt(list, i);
      ColumnStep(runs, i);
      buf := AppendVarint(buf, list[i].runLength);
    }
    assert runs[..|list|] == runs;
    ghost var middle := buf;
    for i := 0 to |list|
      invariant buf == middle + EncodedAll(lengths[..i])
    {
      ColumnsAt(list, i);
      ColumnStep(lengths, i);
      buf := AppendVarint(buf, list[i].length);
    }
    assert lengths[..|list|] == lengths;
  }

  method PutOffsets(list: seq<Entry>, start: Bytes) returns (buf: Bytes)
    ensures buf == start + EncodedAll(OffsetCodes(list, |list|))
  {
    hide EncodedAll, Encoded;
    var next: nat := 0;
    buf := start;
    assert EncodedAll(OffsetCodes(list, 0)) == [] by { NothingEncoded(); }
    for index := 0 to |list|
      invariant buf == start + EncodedAll(OffsetCodes(list, index))
      invariant index > 0 ==> next == Next(list[index - 1])
    {
      var item := list[index];
      EncodedAllAppend(OffsetCodes(list, index), OffsetCode(list, index));
      if index > 0 && item.offset == next {
        buf := AppendVarint(buf, 0);
      } else {
        buf := AppendVarint(buf, U64(item.offset + 1));
      }
      next := U64(item.offset + item.length);
    }
  }

  lemma {:induction false} ColumnStep(vs: seq<nat>, i: nat)
    requires i < |vs|
    ensures EncodedAll(vs[..i + 1]) == EncodedAll(vs[..i]) + Encoded(vs[i])
  {
    EncodedAllAppend(vs[..i], vs[i]);
    assert vs[..i + 1] == vs[..i] + [vs[i]];
  }

  lemma {:induction false} ColumnLengths(list: seq<Entry>)
    ensures |Deltas(list, 0)| == |Runs(list)| == |Lengths(list)| == |list|
  {
    if list != [] {
      DeltasAt(list, 0, 0);
      ColumnsAt(list, 0);
    }
  }

  // ----- The decoder -----

  /** The first n varints and what is left after them. */
  function ReadTo(b: Bytes, n: nat): (r: Option<(seq<nat>, Bytes)>)
    ensures r.Some? ==> |r.value.0| == n
  {
    if n == 0 then Some(([], b))
    else
      match ReadTo(b, n - 1)
      case None => None
      case Some((vs, rest)) =>
        match Uvarint(rest)
        case None => None
        case Some((v, tail)) => Some((vs + [v], tail))
  }

  /** The first n running sums, unless one overflows. */
  function IdsTo(deltas: seq<nat>, n: nat): (r: Option<seq<nat>>)
    requires n <= |deltas|
    ensures r.Some? ==> |r.value| == n
  {
    if n == 0 then Some([])
    else
      match IdsTo(deltas, n - 1)
      case None => None
      case Some(ids) =>
        var last := if n == 1 then 0 else ids[n - 2];
        if deltas[n - 1] > TWO_64 - 1 - last then None else Some(ids + [last + deltas[n - 1]])
  }

  /** The offset a code stands for after the offsets already known: code 0 continues after the
      previous entry, any other is one too large. */
  function OffsetFrom(code: nat, known: seq<nat>, lengths: seq<nat>): Option<nat>
    requires |known| <= |lengths|
  {
    if code != 0 then Some(code - 1)
    else if known == [] then None
    else
      var i := |known| - 1;
      if known[i] > TWO_64 - 1 - lengths[i] then None else Some(known[i] + lengths[i])
  }

  function OffsetsTo(codes: seq<nat>, lengths: seq<nat>, n: nat): (r: Option<seq<nat>>)
    requires n <= |codes| && n <= |lengths|
    ensures r.Some? ==> |r.value| == n
  {
    if n == 0 then Some([])
    else
      match OffsetsTo(codes, lengths, n - 1)
      case None => None
      case Some(known) =>
        match OffsetFrom(codes[n - 1], known, lengths)
        case None => None
        case Some(o) => Some(known + [o])
  }

  /** The identifier column at the front of b, and what is left. */
  function IdColumn(b: Bytes, n: nat): Option<(seq<nat>, Bytes)> {
    match ReadTo(b, n)
    case None => None
    case Some((deltas, rest)) =>
      match IdsTo(deltas, n)
      case None => None
      case Some(ids) => Some((ids, rest))
  }

  function OffsetColumn(b: Bytes, lengths: seq<nat>): Option<seq<nat>> {
    match ReadTo(b, |lengths|)
    case None => None
    case Some((codes, _)) => OffsetsTo(codes, lengths, |lengths|)
  }

  function Zip(ids: seq<nat>, runs: seq<nat>, lengths: seq<nat>, offsets: seq<nat>): (es: seq<Entry>)
    requires |ids| == |runs| == |lengths| == |offsets|
    ensures |es| == |ids|
  {
    seq(|ids|, i requires 0 <= i < |ids| => Entry(ids[i], offsets[i], lengths[i], runs[i]))
  }

  function Columns(b: Bytes, n: nat): (r: Option<seq<Entry>>)
    ensures r.Some? ==> |r.value| == n
  {
    match IdColumn(b, n)
    case None => None
    case Some((ids, b1)) =>
      match ReadTo(b1, n)
      case None => None
      case Some((runs, b2)) =>
        match ReadTo(b2, n)
        case None => None
        case Some((lengths, b3)) =>
          match OffsetColumn(b3, lengths)
          case None => None
          case Some(offsets) => Some(Zip(ids, runs, lengths, offsets))
  }

  /** A decoded directory, or None where the decoder reports an error. */
  function Deserialized(buf: Bytes): Option<seq<Entry>> {
    match Uvarint(buf)
    case None => None
    case Some((count, b)) =>
      if count == 0 || count > |b| / 4 then None else Columns(b, count)
  }

  lemma {:induction false} ReadToStops(b: Bytes, m: nat, n: nat)
    requires m <= n && ReadTo(b, m).None?
    ensures ReadTo(b, n).None?
  {
    if m < n {
      ReadToStops(b, m, n - 1);
    }
  }

  lemma {:induction false} ReadToPrefix(b: Bytes, m: nat, n: nat)
    requires m <= n && ReadTo(b, n).Some?
    ensures ReadTo(b, m).Some? && ReadTo(b, m).value.0 == ReadTo(b, n).value.0[..m]
  {
    if m < n {
      ReadToPrefix(b, m, n - 1);
    }
  }

  lemma {:induction false} IdsToStops(deltas: seq<nat>, m: nat, n: nat)
    requires m <= n <= |deltas| && IdsTo(deltas, m).None?
    ensures IdsTo(deltas, n).None?
  {
    if m < n {
      IdsToStops(deltas, m, n - 1);
    }
  }

  lemma {:induction false} IdsToOfPrefix(deltas: seq<nat>, more: seq<nat>, n: nat)
    requires n <= |deltas| <= |more| && more[..|deltas|] == deltas
    ensures IdsTo(more, n) == IdsTo(deltas, n)
  {
    if n > 0 {
      IdsToOfPrefix(deltas, more, n - 1);
      assert more[n - 1] == more[..|deltas|][n - 1];
    }
  }

  lemma {:induction false} OffsetsToStops(codes: seq<nat>, lengths: seq<nat>, m: nat, n: nat)
    requires m <= n <= |codes| && n <= |lengths| && OffsetsTo(codes, lengths, m).None?
    ensures OffsetsTo(codes, lengths, n).None?
  {
    if m < n {
      OffsetsToStops(codes, lengths, m, n - 1);
    }
  }

  lemma {:induction false} OffsetsToOfPrefix(codes: seq<nat>, more: seq<nat>, lengths: seq<nat>, n: nat)
    requires n <= |codes| <= |more| && n <= |lengths| && more[..|codes|] == codes
    ensures OffsetsTo(codes, lengths, n) == OffsetsTo(more, lengths, n)
  {
    if n > 0 {
      OffsetsToOfPrefix(codes, more, lengths, n - 1);
      assert more[n - 1] == more[..|codes|][n - 1];
    }
  }

  /** A column that fails in its first m varints fails altogether. */
  lemma {:induction false} IdColumnFails(b: Bytes, m: nat, n: nat)
    requires m <= n
    requires ReadTo(b, m).Some? ==> IdsTo(ReadTo(b, m).value.0, m).None?
    ensures IdColumn(b, n).None?
  {
    if ReadTo(b, m).None? {
      ReadToStops(b, m, n);
    } else if ReadTo(b, n).Some? {
      var deltas, all := ReadTo(b, m).value.0, ReadTo(b, n).value.0;
      ReadToPrefix(b, m, n);
      IdsToOfPrefix(deltas, all, m);
      IdsToStops(all, m, n);
    }
  }

  /** The identifiers of the first n varints of b, and what is left after them. */
  ghost predicate IdsSoFar(b: Bytes, n: nat, deltas: seq<nat>, reader: Bytes, ids: seq<nat>) {
    ReadTo(b, n) == Some((deltas, reader)) && IdsTo(deltas, n) == Some(ids)
  }

  lemma {:induction false} IdsStart(b: Bytes)
    ensures IdsSoFar(b, 0, [], b, [])
  {
  }

  /** One more varint is missing, overflows or gives one more identifier. */
  lemma {:induction false} IdsNext(b: Bytes, i: nat, n: nat, deltas: seq<nat>, reader: Bytes, ids: seq<nat>)
    requires IdsSoFar(b, i, deltas, reader, ids) && i < n
    ensures |ids| == i
    ensures match Uvarint(reader)
            case None => IdColumn(b, n).None?
            case Some((delta, rest)) =>
              var last := if i == 0 then 0 else ids[i - 1];
              if delta > TWO_64 - 1 - last then IdColumn(b, n).None?
              else IdsSoFar(b, i + 1, deltas + [delta], rest, ids + [last + delta])
  {
    hide Uvarint, IdColumn;
    match Uvarint(reader) {
      case None =>
        IdColumnFails(b, i + 1, n);
      case Some((delta, rest)) =>
        IdsToOfPrefix(deltas, deltas + [delta], i);
        if delta > TWO_64 - 1 - (if i == 0 then 0 else ids[i - 1]) {
          IdColumnFails(b, i + 1, n);
        }
    }
  }

  lemma {:induction false} IdsDone(b: Bytes, n: nat, deltas: seq<nat>, reader: Bytes, ids: seq<nat>)
    requires IdsSoFar(b, n, deltas, reader, ids)
    ensures |ids| == n && IdColumn(b, n) == Some((ids, reader))
  {
  }

  /** Reads the identifier column into the entries. */
  method ReadIds(b: Bytes, entries: array<Entry>) returns (left: Option<Bytes>, ghost ids: seq<nat>)
    modifies entries
    ensures left.None? ==> IdColumn(b, entries.Length).None?
    ensures left.Some? ==> IdColumn(b, entries.Length) == Some((ids, left.value)) && |ids| == entries.Length
    ensures left.Some? ==> forall k :: 0 <= k < entries.Length ==> entries[k].tileId == ids[k]
  {
    hide IdsSoFar, Uvarint, IdColumn;
    var reader, lastId: nat := b, 0;
    ghost var deltas: seq<nat> := [];
    ids := [];
    IdsStart(b);
    for index := 0 to entries.Length
      invariant IdsSoFar(b, index, deltas, reader, ids) && |ids| == index
      invariant lastId == if index == 0 then 0 else ids[index - 1]
      invariant forall k :: 0 <= k < index ==> entries[k].tileId == ids[k]
    {
      IdsNext(b, index, entries.Length, deltas, reader, ids);
      var read := Uvarint(reader);
      if read.None? {
        return None, ids;
      }
      var delta := read.value.0;
      if delta > TWO_64 - 1 - lastId {
        return None, ids;
      }
      deltas, reader := deltas + [delta], read.value.1;
      lastId := lastId + delta;
      ids := ids + [lastId];
      entries[index] := entries[index].(tileId := lastId);
    }
    IdsDone(b, entries.Length, deltas, reader, ids);
    left := Some(reader);
  }

  /** Reads the run lengths, leaving the identifiers as they are. */
  method ReadRuns(b: Bytes, entries: array<Entry>, ghost ids: seq<nat>)
    returns (left: Option<Bytes>, ghost runs: seq<nat>)
    requires |ids| == entries.Length && forall k :: 0 <= k < entries.Length ==> entries[k].tileId == ids[k]
    modifies entries
    ensures left.None? ==> ReadTo(b, entries.Length).None?
    ensures left.Some? ==> ReadTo(b, entries.Length) == Some((runs, left.value))
    ensures left.Some? ==>
              forall k :: 0 <= k < entries.Length ==> entries[k].tileId == ids[k] && entries[k].runLength == runs[k]
  {
    var reader := b;
    runs := [];
    for index := 0 to entries.Length
      invariant ReadTo(b, index) == Some((runs, reader))
      invariant forall k :: 0 <= k < entries.Length ==> entries[k].tileId == ids[k]
      invariant forall k :: 0 <= k < index ==> entries[k].runLength == runs[k]
    {
      var read := Uvarint(reader);
      if read.None? {
        ReadToStops(b, index + 1, entries.Length);
        return None, runs;
      }
      runs, reader := runs + [read.value.0], read.value.1;
      entries[index] := entries[index].(runLength := read.value.0);
    }
    left := Some(reader);
  }

  method ReadLengths(b: Bytes, entries: array<Entry>, ghost ids: seq<nat>, ghost runs: seq<nat>)
    returns (left: Option<Bytes>, ghost lengths: seq<nat>)
    requires |ids| == |runs| == entries.Length
    requires forall k :: 0 <= k < entries.Length ==> entries[k].tileId == ids[k] && entries[k].runLength == runs[k]
    modifies entries
    ensures left.None? ==> ReadTo(b, entries.Length).None?
    ensures left.Some? ==> ReadTo(b, entries.Length) == Some((lengths, left.value))
    ensures left.Some? ==> forall k :: 0 <= k < entries.Length ==>
              entries[k].tileId == ids[k] && entries[k].runLength == runs[k] && entries[k].length == lengths[k]
  {
    var reader := b;
    lengths := [];
    for index := 0 to entries.Length
      invariant ReadTo(b, index) == Some((lengths, reader))
      invariant forall k :: 0 <= k < entries.Length ==> entries[k].tileId == ids[k] && entries[k].runLength == runs[k]
      invariant forall k :: 0 <= k < index ==> entries[k].length == lengths[k]
    {
      var read := Uvarint(reader);
      if read.None? {
        ReadToStops(b, index + 1, entries.Length);
        return None, lengths;
      }
      lengths, reader := lengths + [read.value.0], read.value.1;
      entries[index] := entries[index].(length := read.value.0);
    }
    left := Some(reader);
  }

  lemma {:induction false} OffsetColumnFails(b: Bytes, lengths: seq<nat>, m: nat)
    requires m <= |lengths|
    requires ReadTo(b, m).Some? ==> OffsetsTo(ReadTo(b, m).value.0, lengths, m).None?
    ensures OffsetColumn(b, lengths).None?
  {
    var n := |lengths|;
    if ReadTo(b, m).None? {
      ReadToStops(b, m, n);
    } else if ReadTo(b, n).Some? {
      var codes, all := ReadTo(b, m).value.0, ReadTo(b, n).value.0;
      ReadToPrefix(b, m, n);
      OffsetsToOfPrefix(codes, all, lengths, m);
      OffsetsToStops(all, lengths, m, n);
    }
  }

  ghost predicate OffsetsSoFar(b: Bytes, lengths: seq<nat>, n: nat, codes: seq<nat>, reader: Bytes, offsets: seq<nat>)
  {
    n <= |lengths| && ReadTo(b, n) == Some((codes, reader)) && OffsetsTo(codes, lengths, n) == Some(offsets)
  }

  lemma {:induction false} OffsetsStart(b: Bytes, lengths: seq<nat>)
    ensures OffsetsSoFar(b, lengths, 0, [], b, [])
  {
  }

  /** One more varint is missing, stands for no offset or gives one more. */
  lemma {:induction false} OffsetsNext(b: Bytes, lengths: seq<nat>, i: nat, codes: seq<nat>, reader: Bytes,
                                       offsets: seq<nat>)
    requires OffsetsSoFar(b, lengths, i, codes, reader, offsets) && i < |lengths|
    ensures |offsets| == i
    ensures match Uvarint(reader)
            case None => OffsetColumn(b, lengths).None?
            case Some((code, rest)) =>
              match OffsetFrom(code, offsets, lengths)
              case None => OffsetColumn(b, lengths).None?
              case Some(offset) => OffsetsSoFar(b, lengths, i + 1, codes + [code], rest, offsets + [offset])
  {
    hide Uvarint, OffsetColumn, OffsetFrom;
    match Uvarint(reader) {
      case None =>
        OffsetColumnFails(b, lengths, i + 1);
      case Some((code, rest)) =>
        OffsetsToOfPrefix(codes, codes + [code], lengths, i);
        if OffsetFrom(code, offsets, lengths).None? {
          OffsetColumnFails(b, lengths, i + 1);
        }
    }
  }

  lemma {:induction false} OffsetsDone(b: Bytes, lengths: seq<nat>, codes: seq<nat>, reader: Bytes, offsets: seq<nat>)
    requires OffsetsSoFar(b, lengths, |lengths|, codes, reader, offsets)
    ensures |offsets| == |lengths| && OffsetColumn(b, lengths) == Some(offsets)
  {
  }

  /** Reads the offsets; a zero continues the entry before it. */
  method ReadOffsets(b: Bytes, entries: array<Entry>, ghost ids: seq<nat>, ghost runs: seq<nat>,
                     ghost lengths: seq<nat>)
    returns (ok: bool, ghost offsets: seq<nat>)
    requires |ids| == |runs| == |lengths| == entries.Length
    requires forall k :: 0 <= k < entries.Length ==>
               entries[k].tileId == ids[k] && entries[k].runLength == runs[k] && entries[k].length == lengths[k]
    modifies entries
    ensures if ok then OffsetColumn(b, lengths) == Some(offsets) else OffsetColumn(b, lengths).None?
    ensures ok ==> |offsets| == entries.Length && entries[..] == Zip(ids, runs, lengths, offsets)
  {
    hide OffsetsSoFar, Uvarint, OffsetColumn;
    var reader := b;
    ghost var codes: seq<nat> := [];
    offsets := [];
    OffsetsStart(b, lengths);
    for index := 0 to entries.Length
      invariant OffsetsSoFar(b, lengths, index, codes, reader, offsets) && |offsets| == index
      invariant forall k :: 0 <= k < entries.Length ==>
                  entries[k].tileId == ids[k] && entries[k].runLength == runs[k] && entries[k].length == lengths[k]
      invariant forall k :: 0 <= k < index ==> entries[k].offset == offsets[k]
    {
      OffsetsNext(b, lengths, index, codes, reader, offsets);
      var read := Uvarint(reader);
      if read.None? {
        return false, offsets;
      }
      var value := read.value.0;
      codes, reader := codes + [value], read.value.1;
      if value == 0 && index > 0 {
        var previous := entries[index - 1];
        if previous.offset > TWO_64 - 1 - previous.length {
          return false, offsets;
        }
        entries[index] := entries[index].(offset := previous.offset + previous.length);
        offsets := offsets + [previous.offset + previous.length];
      } else if value == 0 {
        return false, offsets;
      } else {
        entries[index] := entries[index].(offset := value - 1);
        offsets := offsets + [value - 1];
      }
    }
    OffsetsDone(b, lengths, codes, reader, offsets);
    ok := true;
    assert entries[..] == Zip(ids, runs, lengths, offsets);
  }

  method DeserializeEntries(buf: Bytes) returns (r: Option<seq<Entry>>)
    ensures r == Deserialized(buf)
  {
    hide ReadTo, IdColumn, OffsetColumn, Zip;
    var read := Uvarint(buf);
    if read.None? {
      return None;
    }
    var (count, reader) := read.value;
    if count == 0 || count > |reader| / 4 {
      return None;
    }
    var entries := new Entry[count](_ => Entry(0, 0, 0, 0));
    var left, ids := ReadIds(reader, entries);
    if left.None? {
      return None;
    }
    var left1, runs := ReadRuns(left.value, entries, ids);
    if left1.None? {
      return None;
    }
    var left2, lengths := ReadLengths(left1.value, entries, ids, runs);
    if left2.None? {
      return None;
    }
    var ok, offsets := ReadOffsets(left2.value, entries, ids, runs, lengths);
    if !ok {
      return None;
    }
    r := Some(entries[..]);
  }

  // ----- The round trip -----

  lemma {:induction false} EncodedAllSize(vs: seq<nat>)
    ensures |EncodedAll(vs)| >= |vs|
  {
    if vs != [] {
      EncodedAllSize(vs[1..]);
    }
  }

  lemma {:induction false} UvarintOfWord(v: nat, tail: Bytes)
    requires IsWord(v)
    ensures Uvarint(Encoded(v) + tail) == Some((v, tail))
  {
    Pow2Values();
    UvarintOfEncoded(v, 0, tail);
  }

  lemma {:induction false} ReadBack(vs: seq<nat>, tail: Bytes, n: nat)
    requires n <= |vs| && Words(vs)
    ensures ReadTo(EncodedAll(vs) + tail, n) == Some((vs[..n], EncodedAll(vs[n..]) + tail))
  {
    hide Encoded, Uvarint;
    if n == 0 {
      assert vs[0..] == vs;
    } else {
      ReadBack(vs, tail, n - 1);
      assert vs[n - 1..][1..] == vs[n..] && vs[n - 1] in vs;
      var rest := EncodedAll(vs[n..]) + tail;
      assert EncodedAll(vs[n - 1..]) + tail == Encoded(vs[n - 1]) + rest;
      UvarintOfWord(vs[n - 1], rest);
      assert vs[..n] == vs[..n - 1] + [vs[n - 1]];
    }
  }

  lemma {:induction false} ReadBackAll(vs: seq<nat>, tail: Bytes)
    requires Words(vs)
    ensures ReadTo(EncodedAll(vs) + tail, |vs|) == Some((vs, tail))
  {
    ReadBack(vs, tail, |vs|);
    assert vs[..|vs|] == vs && vs[|vs|..] == [] && [] + tail == tail;
  }

  function Ids(list: seq<Entry>): (ids: seq<nat>)
    ensures |ids| == |list|
  {
    seq(|list|, i requires 0 <= i < |list| => list[i].tileId)
  }

  function OffsetsOf(list: seq<Entry>): (os: seq<nat>)
    ensures |os| == |list|
  {
    seq(|list|, i requires 0 <= i < |list| => list[i].offset)
  }

  ghost predicate Ascending(list: seq<Entry>, n: nat)
    requires n <= |list|
  {
    forall i :: 0 < i < n ==> list[i - 1].tileId <= list[i].tileId
  }

  ghost predicate AllEntries(list: seq<Entry>) {
    forall e :: e in list ==> IsEntry(e)
  }

  lemma {:induction false} IdsMore(list: seq<Entry>, n: nat)
    requires 0 < n <= |list|
    ensures Ids(list)[..n] == Ids(list)[..n - 1] + [list[n - 1].tileId]
    ensures n > 1 ==> Ids(list)[..n - 1][n - 2] == list[n - 2].tileId
    ensures Ascending(list, n) <==> Ascending(list, n - 1) && (n > 1 ==> list[n - 2].tileId <= list[n - 1].tileId)
  {
  }

  /** The identifiers come back exactly as far as they ascend. */
  lemma {:induction false} IdsComeBack(list: seq<Entry>, n: nat)
    requires AllEntries(list) && n <= |list|
    ensures |Deltas(list, 0)| == |list|
    ensures IdsTo(Deltas(list, 0), n) == if Ascending(list, n) then Some(Ids(list)[..n]) else None
  {
    hide Deltas, Ascending, Ids;
    ColumnLengths(list);
    if n == 0 {
      NoneDescend(list);
    } else {
      IdsComeBack(list, n - 1);
      IdsMore(list, n);
      DeltasAt(list, 0, n - 1);
      assert list[n - 1] in list;
      if n > 1 {
        assert list[n - 2] in list;
        WrappedDifference(list[n - 1].tileId, list[n - 2].tileId);
      }
    }
  }

  lemma {:induction false} NoneDescend(list: seq<Entry>)
    ensures Ascending(list, 0) && Ids(list)[..0] == []
  {
  }

  /** A wrapped difference overflows when added back exactly when it wrapped. */
  lemma {:induction false} WrappedDifference(id: nat, last: nat)
    requires IsWord(id) && IsWord(last)
    ensures U64(id - last) > TWO_64 - 1 - last <==> id < last
    ensures id >= last ==> U64(id - last) == id - last
  {
  }

  lemma {:induction false} WrappedSum(a: nat, b: nat)
    requires IsWord(a) && IsWord(b)
    ensures U64(a + b) == if a + b < TWO_64 then a + b else a + b - TWO_64
  {
  }

  /** The offset of entry i survives its code: an entry that continues the one before must not do so
      by wrapping around, any other must leave room to add one. */
  predicate OffsetSurvives(list: seq<Entry>, i: nat)
    requires i < |list|
  {
    if i > 0 && list[i].offset == Next(list[i - 1]) then list[i - 1].offset + list[i - 1].length < TWO_64
    else list[i].offset + 1 < TWO_64
  }

  ghost predicate OffsetsSurvive(list: seq<Entry>, n: nat)
    requires n <= |list|
  {
    forall i :: 0 <= i < n ==> OffsetSurvives(list, i)
  }

  lemma {:induction false} OffsetsComeBack(list: seq<Entry>, n: nat)
    requires AllEntries(list) && n <= |list|
    ensures |OffsetCodes(list, |list|)| == |Lengths(list)| == |list|
    ensures OffsetsTo(OffsetCodes(list, |list|), Lengths(list), n) == Some(OffsetsOf(list)[..n])
            <==> OffsetsSurvive(list, n)
  {
    ColumnLengths(list);
    OffsetCodesLength(list);
    if n > 0 {
      OffsetsComeBack(list, n - 1);
      OffsetCodesAt(list, |list|, n - 1);
      assert list[n - 1] in list;
      var os := OffsetsOf(list);
      assert os[..n] == os[..n - 1] + [list[n - 1].offset];
      OffsetStep(list, OffsetsTo(OffsetCodes(list, |list|), Lengths(list), n - 1), n);
    }
  }

  lemma {:induction false} OffsetCodesLength(list: seq<Entry>)
    ensures |OffsetCodes(list, |list|)| == |list|
  {
    if list != [] {
      OffsetCodesAt(list, |list|, 0);
    }
  }

  /** One code gives its offset back exactly when the offset survives. */
  lemma {:induction false} OneOffset(list: seq<Entry>, i: nat)
    requires AllEntries(list) && i < |list| && |Lengths(list)| == |list|
    ensures OffsetFrom(OffsetCode(list, i), OffsetsOf(list)[..i], Lengths(list)) == Some(list[i].offset)
            <==> OffsetSurvives(list, i)
  {
    hide Lengths, U64;
    assert list[i] in list;
    WrappedSum(list[i].offset, 1);
    if i > 0 {
      ColumnsAt(list, i - 1);
      assert list[i - 1] in list;
      WrappedSum(list[i - 1].offset, list[i - 1].length);
      assert OffsetsOf(list)[..i][i - 1] == list[i - 1].offset;
    }
  }

  lemma {:induction false} OffsetStep(list: seq<Entry>, known: Option<seq<nat>>, n: nat)
    requires AllEntries(list) && 0 < n <= |list| && |OffsetCodes(list, |list|)| == |Lengths(list)| == |list|
    requires known == OffsetsTo(OffsetCodes(list, |list|), Lengths(list), n - 1)
    requires known == Some(OffsetsOf(list)[..n - 1]) <==> OffsetsSurvive(list, n - 1)
    ensures OffsetsTo(OffsetCodes(list, |list|), Lengths(list), n) == Some(OffsetsOf(list)[..n])
            <==> OffsetsSurvive(list, n)
  {
    hide OffsetCodes, Lengths, OffsetFrom, OffsetSurvives, OffsetCode;
    var os := OffsetsOf(list);
    OffsetCodesAt(list, |list|, n - 1);
    OneOffset(list, n - 1);
    assert os[..n] == os[..n - 1] + [list[n - 1].offset];
    var r := OffsetsTo(OffsetCodes(list, |list|), Lengths(list), n);
    if r.Some? {
      assert r.value[..n - 1] == known.value && os[..n][..n - 1] == os[..n - 1];
      assert r.value == r.value[..n - 1] + [r.value[n - 1]];
    }
  }

  /** Which entry lists survive being written and read back. */
  ghost predicate Survives(list: seq<Entry>) {
    list != [] && Ascending(list, |list|) && OffsetsSurvive(list, |list|)
  }

  /** Reading a written directory gives it back exactly when it is not empty, its identifiers ascend
      and its offsets survive; the guard on the count never stands in the way. */
  lemma {:induction false} DirectoryRoundTrip(list: seq<Entry>)
    requires AllEntries(list) && IsWord(|list|)
    ensures Deserialized(Serialized(list)) == Some(list) <==> Survives(list)
  {
    hide ReadTo, IdsTo, OffsetsTo, EncodedAll, Encoded, OffsetCodes, Deltas, Runs, Lengths, Uvarint;
    ColumnLengths(list);
    OffsetCodesLength(list);
    var d, r, l, o := EncodedAll(Deltas(list, 0)), EncodedAll(Runs(list)), EncodedAll(Lengths(list)),
                          EncodedAll(OffsetCodes(list, |list|));
    var body := d + (r + (l + o));
    assert Serialized(list) == Encoded(|list|) + body;
    UvarintOfWord(|list|, body);
    EncodedAllSize(Deltas(list, 0));
    EncodedAllSize(Runs(list));
    EncodedAllSize(Lengths(list));
    EncodedAllSize(OffsetCodes(list, |list|));
    assert |body| >= 4 * |list|;
    if list != [] {
      ColumnsRoundTrip(list, body);
    }
  }

  /** Two lists that are written without complaint and do not read back: the last offset of all has no
      code, and a second entry that follows the first only by wrapping around is refused. */
  lemma {:induction false} LostOffsets()
    ensures var list := [Entry(0, TWO_64 - 1, 0, 1)]; AllEntries(list) && Deserialized(Serialized(list)) != Some(list)
    ensures var list := [Entry(0, TWO_64 - 2, 2, 1), Entry(1, 0, 2, 1)];
            AllEntries(list) && Deserialized(Serialized(list)) != Some(list)
  {
    hide Serialized, Deserialized;
    var one, two := [Entry(0, TWO_64 - 1, 0, 1)], [Entry(0, TWO_64 - 2, 2, 1), Entry(1, 0, 2, 1)];
    assert !OffsetSurvives(one, 0) && !OffsetSurvives(two, 1);
    DirectoryRoundTrip(one);
    DirectoryRoundTrip(two);
  }

  lemma {:induction false} ColumnsRoundTrip(list: seq<Entry>, body: Bytes)
    requires AllEntries(list)
    requires body == EncodedAll(Deltas(list, 0))
             + (EncodedAll(Runs(list)) + (EncodedAll(Lengths(list)) + EncodedAll(OffsetCodes(list, |list|))))
    ensures Columns(body, |list|) == Some(list) <==> Ascending(list, |list|) && OffsetsSurvive(list, |list|)
  {
    hide ReadTo, IdsTo, OffsetsTo, EncodedAll, OffsetCodes, Deltas, Runs, Lengths;
    ColumnLengths(list);
    OffsetCodesLength(list);
    ColumnWords(list);
    var o := EncodedAll(OffsetCodes(list, |list|));
    ReadBackAll(Deltas(list, 0), EncodedAll(Runs(list)) + (EncodedAll(Lengths(list)) + o));
    ReadBackAll(Runs(list), EncodedAll(Lengths(list)) + o);
    ReadBackAll(Lengths(list), o);
    ReadBackAll(OffsetCodes(list, |list|), []);
    assert o + [] == o;
    IdsComeBack(list, |list|);
    OffsetsComeBack(list, |list|);
    assert Ids(list)[..|list|] == Ids(list) && OffsetsOf(list)[..|list|] == OffsetsOf(list);
    if Ascending(list, |list|) {
      ZipIff(list, OffsetsTo(OffsetCodes(list, |list|), Lengths(list), |list|));
    }
  }

  lemma {:induction false} ColumnWords(list: seq<Entry>)
    requires AllEntries(list)
    ensures Words(Deltas(list, 0)) && Words(Runs(list)) && Words(Lengths(list)) && Words(OffsetCodes(list, |list|))
  {
    ColumnLengths(list);
    OffsetCodesLength(list);
    forall i | 0 <= i < |list|
      ensures IsWord(Deltas(list, 0)[i]) && IsWord(Runs(list)[i]) && IsWord(Lengths(list)[i])
              && IsWord(OffsetCodes(list, |list|)[i])
    {
      assert list[i] in list;
      DeltasAt(list, 0, i);
      ColumnsAt(list, i);
      OffsetCodesAt(list, |list|, i);
    }
  }

  lemma {:induction false} ZipIff(list: seq<Entry>, offsets: Option<seq<nat>>)
    requires |Runs(list)| == |Lengths(list)| == |list|
    requires offsets.Some? ==> |offsets.value| == |list|
    ensures offsets.Some? ==>
              (Zip(Ids(list), Runs(list), Lengths(list), offsets.value) == list <==> offsets.value == OffsetsOf(list))
  {
    hide Runs, Lengths;
    if offsets.Some? {
      var z := Zip(Ids(list), Runs(list), Lengths(list), offsets.value);
      forall i | 0 <= i < |list| ensures z[i] == list[i] <==> offsets.value[i] == OffsetsOf(list)[i] {
        ColumnsAt(list, i);
      }
    }
  }

  /** Whatever bytes are accepted, the entries are words with ascending identifiers, at least four
      bytes each. */
  lemma {:induction false} DeserializedSound(buf: Bytes)
    requires Deserialized(buf).Some?
    ensures var es := Deserialized(buf).value;
            es != [] && 4 * |es| < |buf| && Ascending(es, |es|) && forall e :: e in es ==> IsWord(e.tileId)
  {
    var (count, b) := Uvarint(buf).value;
    UvarintFits(buf, 0);
    var deltas := ReadTo(b, count).value.0;
    IdsAscend(deltas, count);
  }

  lemma {:induction false} IdsAscend(deltas: seq<nat>, n: nat)
    requires n <= |deltas| && IdsTo(deltas, n).Some?
    ensures var ids := IdsTo(deltas, n).value;
            && (forall i :: 0 < i < n ==> ids[i - 1] <= ids[i])
            && (forall i :: 0 <= i < n ==> IsWord(ids[i]))
  {
    if n > 0 {
      IdsAscend(deltas, n - 1);
    }
  }

  // ----- What a directory's numbers say -----

  lemma {:induction false} ReadToJoined(b: Bytes, m: nat, n: nat)
    ensures ReadTo(b, m + n) == match ReadTo(b, m)
                                case None => None
                                case Some((vs, rest)) =>
                                  match ReadTo(rest, n)
                                  case None => None
                                  case Some((ws, tail)) => Some((vs + ws, tail))
  {
    hide Uvarint;
    if n == 0 {
      match ReadTo(b, m) {
        case None =>
        case Some((vs, rest)) => assert vs + [] == vs;
      }
    } else {
      ReadToJoined(b, m, n - 1);
      match ReadTo(b, m) {
        case None =>
        case Some((vs, rest)) =>
          match ReadTo(rest, n - 1) {
            case None =>
            case Some((ws, tail)) =>
              match Uvarint(tail) {
                case None =>
                case Some((v, _)) => assert (vs + ws) + [v] == vs + (ws + [v]);
              }
          }
      }
    }
  }

  /** An identifier is the one before it and the difference, in 64 bits. */
  predicate IdStands(ids: seq<nat>, deltas: seq<nat>, i: nat)
    requires i < |ids| <= |deltas|
  {
    ids[i] == (if i == 0 then 0 else ids[i - 1]) + deltas[i] && ids[i] < TWO_64
  }

  ghost predicate IdsStand(ids: seq<nat>, deltas: seq<nat>) {
    |ids| <= |deltas| && forall i :: 0 <= i < |ids| ==> IdStands(ids, deltas, i)
  }

  /** Code 0 follows on the entry before it, any other is one more than the offset. */
  predicate OffsetStands(offsets: seq<nat>, codes: seq<nat>, lengths: seq<nat>, i: nat)
    requires i < |offsets| <= |codes| && |offsets| <= |lengths|
  {
    if codes[i] == 0 then i > 0 && offsets[i] == offsets[i - 1] + lengths[i - 1] < TWO_64
    else offsets[i] + 1 == codes[i]
  }

  ghost predicate OffsetsStand(offsets: seq<nat>, codes: seq<nat>, lengths: seq<nat>) {
    && |offsets| <= |codes| && |offsets| <= |lengths|
    && forall i :: 0 <= i < |offsets| ==> OffsetStands(offsets, codes, lengths, i)
  }

  lemma {:induction false} IdsToIff(deltas: seq<nat>, ids: seq<nat>)
    requires |ids| <= |deltas|
    ensures IdsTo(deltas, |ids|) == Some(ids) <==> IdsStand(ids, deltas)
  {
    var n := |ids|;
    if n > 0 {
      var init := ids[..n - 1];
      IdsToIff(deltas, init);
      assert ids == init + [ids[n - 1]];
      if IdsStand(ids, deltas) {
        forall i | 0 <= i < n - 1 ensures IdStands(init, deltas, i) {
          assert IdStands(ids, deltas, i);
        }
        assert IdStands(ids, deltas, n - 1);
      }
      if IdsTo(deltas, n) == Some(ids) {
        assert IdsTo(deltas, n - 1) == Some(init);
        forall i | 0 <= i < n ensures IdStands(ids, deltas, i) {
          if i < n - 1 {
            assert IdStands(init, deltas, i);
          }
        }
      }
    }
  }

  lemma {:induction false} OffsetsToIff(codes: seq<nat>, lengths: seq<nat>, offsets: seq<nat>)
    requires |offsets| <= |codes| && |offsets| <= |lengths|
    ensures OffsetsTo(codes, lengths, |offsets|) == Some(offsets) <==> OffsetsStand(offsets, codes, lengths)
  {
    var n := |offsets|;
    if n > 0 {
      var init := offsets[..n - 1];
      OffsetsToIff(codes, lengths, init);
      assert offsets == init + [offsets[n - 1]];
      if OffsetsStand(offsets, codes, lengths) {
        forall i | 0 <= i < n - 1 ensures OffsetStands(init, codes, lengths, i) {
          assert OffsetStands(offsets, codes, lengths, i);
        }
        assert OffsetStands(offsets, codes, lengths, n - 1);
      }
      if OffsetsTo(codes, lengths, n) == Some(offsets) {
        assert OffsetsTo(codes, lengths, n - 1) == Some(init);
        forall i | 0 <= i < n ensures OffsetStands(offsets, codes, lengths, i) {
          if i < n - 1 {
            assert OffsetStands(init, codes, lengths, i);
          }
        }
      }
    }
  }

  /** The four columns, and the entries they stand for: identifiers as differences, run lengths, lengths, and
      offsets as codes. */
  ghost predicate ColumnsSay(vs: seq<nat>, es: seq<Entry>) {
    var n := |es|;
    && |vs| == 4 * n
    && IdsStand(Ids(es), vs[..n])
    && (forall i :: 0 <= i < n ==> es[i].runLength == vs[n..2 * n][i])
    && (forall i :: 0 <= i < n ==> es[i].length == vs[2 * n..3 * n][i])
    && OffsetsStand(OffsetsOf(es), vs[3 * n..], vs[2 * n..3 * n])
  }

  lemma {:induction false} FourColumns(b: Bytes, n: nat)
    ensures ReadTo(b, 4 * n) == match ReadTo(b, n)
                                case None => None
                                case Some((ds, b1)) =>
                                  match ReadTo(b1, n)
                                  case None => None
                                  case Some((rs, b2)) =>
                                    match ReadTo(b2, n)
                                    case None => None
                                    case Some((ls, b3)) =>
                                      match ReadTo(b3, n)
                                      case None => None
                                      case Some((os, b4)) => Some((((ds + rs) + ls) + os, b4))
  {
    hide ReadTo;
    ReadToJoined(b, 3 * n, n);
    ReadToJoined(b, 2 * n, n);
    ReadToJoined(b, n, n);
  }

  lemma {:induction false} FourSlices(ds: seq<nat>, rs: seq<nat>, ls: seq<nat>, os: seq<nat>)
    requires |ds| == |rs| == |ls| == |os|
    ensures var n, vs := |ds|, ((ds + rs) + ls) + os;
            && |vs| == 4 * n && vs[..n] == ds && vs[n..2 * n] == rs && vs[2 * n..3 * n] == ls && vs[3 * n..] == os
  {
  }

  lemma {:induction false} ZipIs(ids: seq<nat>, runs: seq<nat>, lengths: seq<nat>, offsets: seq<nat>, es: seq<Entry>)
    requires |ids| == |runs| == |lengths| == |offsets| == |es|
    ensures Zip(ids, runs, lengths, offsets) == es <==>
              && ids == Ids(es) && offsets == OffsetsOf(es)
              && (forall i :: 0 <= i < |es| ==> es[i].runLength == runs[i])
              && (forall i :: 0 <= i < |es| ==> es[i].length == lengths[i])
  {
    var zip := Zip(ids, runs, lengths, offsets);
    if zip == es {
      forall i | 0 <= i < |es| ensures ids[i] == es[i].tileId && offsets[i] == es[i].offset
                                       && es[i].runLength == runs[i] && es[i].length == lengths[i] {
        assert zip[i] == es[i];
      }
    }
    if ids == Ids(es) && offsets == OffsetsOf(es) {
      assert forall i :: 0 <= i < |es| ==> ids[i] == es[i].tileId && offsets[i] == es[i].offset;
    }
  }

  lemma {:induction false} ColumnsExact(b: Bytes, es: seq<Entry>)
    ensures Columns(b, |es|) == Some(es) <==>
              ReadTo(b, 4 * |es|).Some? && ColumnsSay(ReadTo(b, 4 * |es|).value.0, es)
  {
    var n := |es|;
    FourColumns(b, n);
    hide ReadTo, IdsTo, OffsetsTo, Zip, Ids, OffsetsOf, IdsStand, OffsetsStand;
    if ReadTo(b, 4 * n).Some? {
      var (ds, b1) := ReadTo(b, n).value;
      var (rs, b2) := ReadTo(b1, n).value;
      var (ls, b3) := ReadTo(b2, n).value;
      var (os, _) := ReadTo(b3, n).value;
      FourSlices(ds, rs, ls, os);
      IdsToIff(ds, Ids(es));
      OffsetsToIff(os, ls, OffsetsOf(es));
      if IdsTo(ds, n).Some? && OffsetsTo(os, ls, n).Some? {
        ZipIs(IdsTo(ds, n).value, rs, ls, OffsetsTo(os, ls, n).value, es);
      }
    }
  }

  /** A buffer is decoded to exactly the entries that its numbers stand for: a count that is not zero and has
      room for four numbers an entry, and then the four columns. Everything else is refused. */
  lemma {:induction false} DeserializedExact(buf: Bytes, es: seq<Entry>)
    ensures Deserialized(buf) == Some(es) <==>
              && Uvarint(buf).Some?
              && var (count, b) := Uvarint(buf).value;
                 && 0 < count == |es| && 4 * count <= |b|
                 && ReadTo(b, 4 * count).Some? && ColumnsSay(ReadTo(b, 4 * count).value.0, es)
  {
    hide Uvarint, Columns, ReadTo, ColumnsSay;
    if Uvarint(buf).Some? {
      var (count, b) := Uvarint(buf).value;
      ColumnsExact(b, es);
    }
  }
}
