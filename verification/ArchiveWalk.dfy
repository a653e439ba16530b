/** Walking the directories of a PMTiles archive: EachTile and InspectTiles of
    internal/pmtiles/archive.go. */
module ArchiveWalk {
  import opened Bits
  import opened Options
  import opened Directory
  import Sequences
  import TileId
  import opened Visitors

  const MAX_ROOT_BYTES: nat := 16384 - 127
  const MAX_LEAF_BYTES: nat := 33554432
  const MAX_TILE_BYTES: nat := 67108864
  const MAX_LEAF_DEPTH: nat := 4
  const MAX_ADDRESSED: nat := TWO_32

  datatype Section = Section(offset: nat, length: nat)

  datatype Header = Header(root: Section, leaves: Section, tiles: Section, addressed: nat)

  /** An opened archive: its bytes, its header and how its directories are decompressed. */
  datatype Archive = Archive(file: Bytes, header: Header, expand: Bytes -> Option<Bytes>)

  predicate IsSection(s: Section) {
    IsWord(s.offset) && IsWord(s.length)
  }

  predicate InFile(a: Archive, s: Section) {
    s.offset <= |a.file| && s.length <= |a.file| - s.offset
  }

  /** What Open has checked. */
  predicate Opened(a: Archive) {
    && |a.file| < TWO_63
    && IsSection(a.header.root) && IsSection(a.header.leaves) && IsSection(a.header.tiles)
    && (a.header.leaves.length > 0 ==> InFile(a, a.header.leaves))
    && (a.header.tiles.length > 0 ==> InFile(a, a.header.tiles))
    && 0 < a.header.root.length <= MAX_ROOT_BYTES && InFile(a, a.header.root)
    && IsWord(a.header.addressed)
  }

  function ReadDirectory(a: Archive, s: Section, limit: nat): Option<seq<Entry>> {
    if s.length > limit || !InFile(a, s) then None
    else
      match a.expand(a.file[s.offset..s.offset + s.length])
      case None => None
      case Some(raw) => Deserialized(raw)
  }

  function AddOffset(base: nat, relative: nat): Option<nat> {
    if base > TWO_64 - 1 - relative then None else Some(base + relative)
  }

  /** Section-relative extents, and runs that stay within the supported identifiers. */
  predicate ValidEntry(a: Archive, e: Entry) {
    if e.runLength == 0 then
      e.offset <= a.header.leaves.length && e.length <= a.header.leaves.length - e.offset
    else
      && e.offset <= a.header.tiles.length && e.length <= a.header.tiles.length - e.offset
      && e.tileId <= TileId.MAX_TILE_ID && e.runLength - 1 <= TileId.MAX_TILE_ID - e.tileId
  }

  /** The leaf directory an entry points to. */
  function Leaf(a: Archive, e: Entry, depth: nat): Option<seq<Entry>> {
    if depth >= MAX_LEAF_DEPTH || e.length > MAX_LEAF_BYTES then None
    else
      match AddOffset(a.header.leaves.offset, e.offset)
      case None => None
      case Some(offset) => ReadDirectory(a, Section(offset, e.length), MAX_LEAF_BYTES)
  }

  // ----- Inspecting -----

  datatype Stats = Stats(remaining: nat, tiles: nat, tileBytes: nat, maxTileBytes: nat)

  /** The statistics after one tile entry. */
  function Count(e: Entry, s: Stats): Option<Stats> {
    if e.runLength > s.remaining || e.length > MAX_TILE_BYTES then None
    else if e.runLength != 0 && e.length > (TWO_64 - 1) / e.runLength then None
    else
      var expanded := e.length * e.runLength;
      if s.tileBytes > TWO_64 - 1 - expanded || s.tiles > TWO_64 - 1 - e.runLength then None
      else Some(Stats(s.remaining - e.runLength, s.tiles + e.runLength, s.tileBytes + expanded,
                      if e.length > s.maxTileBytes then e.length else s.maxTileBytes))
  }

  function Inspect(a: Archive, entries: seq<Entry>, depth: nat, s: Stats): Option<Stats>
    requires depth <= MAX_LEAF_DEPTH
    decreases MAX_LEAF_DEPTH - depth, |entries|
  {
    if entries == [] then Some(s)
    else
      match InspectOne(a, entries[0], depth, s)
      case None => None
      case Some(t) => Inspect(a, entries[1..], depth, t)
  }

  function InspectOne(a: Archive, e: Entry, depth: nat, s: Stats): Option<Stats>
    requires depth <= MAX_LEAF_DEPTH
    decreases MAX_LEAF_DEPTH - depth, 0
  {
    if !ValidEntry(a, e) then None
    else if e.runLength == 0 then
      match Leaf(a, e, depth)
      case None => None
      case Some(leaf) => Inspect(a, leaf, depth + 1, s)
    else Count(e, s)
  }

  // ----- Visiting -----

  /** One call of the visitor: the tile and where its data was read. */
  datatype Visit = Visit(tile: TileId.Tile, at: nat, data: Bytes)

  datatype Progress = Progress(remaining: nat, visits: seq<Visit>)

  /** ReadAt: a negative offset fails, an empty read succeeds, any other must end within the file. */
  function ReadAt(a: Archive, offset: nat, length: nat): Option<Bytes> {
    if offset >= TWO_63 then None
    else if length == 0 then Some([])
    else if offset + length <= |a.file| then Some(a.file[offset..offset + length])
    else None
  }

  /** The visits of the first n tiles of a run. */
  ghost function RunVisits(e: Entry, at: nat, data: Bytes, n: nat): Option<seq<Visit>> {
    if n == 0 then Some([])
    else
      match RunVisits(e, at, data, n - 1)
      case None => None
      case Some(vs) =>
        var id := e.tileId + (n - 1);
        if e.tileId > TWO_64 - 1 - (n - 1) || id > TileId.MAX_TILE_ID then None
        else Some(vs + [Visit(TileId.TileAt(id), at, data)])
  }

  ghost function VisitEntry(a: Archive, e: Entry, p: Progress): Option<Progress> {
    if e.runLength > p.remaining || e.length > MAX_TILE_BYTES then None
    else
      match AddOffset(a.header.tiles.offset, e.offset)
      case None => None
      case Some(at) =>
        match ReadAt(a, at, e.length)
        case None => None
        case Some(data) =>
          match RunVisits(e, at, data, e.runLength)
          case None => None
          case Some(vs) => Some(Progress(p.remaining - e.runLength, p.visits + vs))
  }

  ghost function Walk(a: Archive, entries: seq<Entry>, depth: nat, p: Progress): Option<Progress>
    requires depth <= MAX_LEAF_DEPTH
    decreases MAX_LEAF_DEPTH - depth, |entries|
  {
    if entries == [] then Some(p)
    else
      match WalkOne(a, entries[0], depth, p)
      case None => None
      case Some(q) => Walk(a, entries[1..], depth, q)
  }

  ghost function WalkOne(a: Archive, e: Entry, depth: nat, p: Progress): Option<Progress>
    requires depth <= MAX_LEAF_DEPTH
    decreases MAX_LEAF_DEPTH - depth, 0
  {
    if !ValidEntry(a, e) then None
    else if e.runLength == 0 then
      match Leaf(a, e, depth)
      case None => None
      case Some(leaf) => Walk(a, leaf, depth + 1, p)
    else VisitEntry(a, e, p)
  }

  // ----- What a walk does while it lasts -----

  /** A look at the context, or a call of the visitor: what may end a walk from outside. */
  datatype Event = Check | Call(visit: Visit)

  /** Everything a walk would do if nothing outside ended it, and the budget left, unless it fails. */
  datatype Course = Course(events: seq<Event>, left: Option<nat>)

  function Then(c: Course, events: seq<Event>): Course {
    Course(events + c.events, c.left)
  }

  ghost function RunCourse(e: Entry, at: nat, data: Bytes, n: nat): (seq<Event>, bool) {
    if n == 0 then ([], true)
    else
      var (before, ok) := RunCourse(e, at, data, n - 1);
      var id := e.tileId + (n - 1);
      if !ok then (before, false)
      else if e.tileId > TWO_64 - 1 - (n - 1) || id > TileId.MAX_TILE_ID then (before + [Check], false)
      else (before + [Check, Call(Visit(TileId.TileAt(id), at, data))], true)
  }

  ghost function EntryCourse(a: Archive, e: Entry, remaining: nat): Course {
    if e.runLength > remaining || e.length > MAX_TILE_BYTES then Course([], None)
    else
      match AddOffset(a.header.tiles.offset, e.offset)
      case None => Course([], None)
      case Some(at) =>
        match ReadAt(a, at, e.length)
        case None => Course([], None)
        case Some(data) =>
          var (events, ok) := RunCourse(e, at, data, e.runLength);
          Course(events, if ok then Some(remaining - e.runLength) else None)
  }

  ghost function WalkCourse(a: Archive, entries: seq<Entry>, depth: nat, remaining: nat): Course
    requires depth <= MAX_LEAF_DEPTH
    decreases MAX_LEAF_DEPTH - depth, |entries|
  {
    if entries == [] then Course([], Some(remaining))
    else
      var first := Then(OneCourse(a, entries[0], depth, remaining), [Check]);
      match first.left
      case None => first
      case Some(left) => Then(WalkCourse(a, entries[1..], depth, left), first.events)
  }

  ghost function OneCourse(a: Archive, e: Entry, depth: nat, remaining: nat): Course
    requires depth <= MAX_LEAF_DEPTH
    decreases MAX_LEAF_DEPTH - depth, 0
  {
    if !ValidEntry(a, e) then Course([], None)
    else if e.runLength == 0 then
      match Leaf(a, e, depth)
      case None => Course([], None)
      case Some(leaf) => WalkCourse(a, leaf, depth + 1, remaining)
    else EntryCourse(a, e, remaining)
  }

  /** The visits among the events. */
  function Calls(events: seq<Event>): seq<Visit> {
    if events == [] then []
    else
      var n := |events| - 1;
      Calls(events[..n]) + if events[n].Call? then [events[n].visit] else []
  }

  lemma {:induction false} CallsConcat(es: seq<Event>, fs: seq<Event>)
    ensures Calls(es + fs) == Calls(es) + Calls(fs)
  {
    if fs == [] {
      assert es + fs == es;
    } else {
      var n := |fs| - 1;
      assert (es + fs)[..|es + fs| - 1] == es + fs[..n];
      CallsConcat(es, fs[..n]);
      Sequences.Associate(Calls(es), Calls(fs[..n]), if fs[n].Call? then [fs[n].visit] else []);
    }
  }

  lemma {:induction false} CallsOf(visit: Visit)
    ensures Calls([Check, Call(visit)]) == [visit] && Calls([Check]) == [] && Calls([]) == []
  {
    assert [Check, Call(visit)][..1] == [Check] && [Check][..0] == [];
  }

  lemma {:induction false} RunCourseVisits(e: Entry, at: nat, data: Bytes, n: nat)
    ensures var (events, ok) := RunCourse(e, at, data, n);
            RunVisits(e, at, data, n) == if ok then Some(Calls(events)) else None
  {
    hide Calls, TileId.TileAt;
    var last := Visit(TileId.Tile(0, 0, 0), at, data);
    CallsOf(last);
    if n > 0 {
      RunCourseVisits(e, at, data, n - 1);
      var visit := Visit(TileId.TileAt(e.tileId + (n - 1)), at, data);
      CallsOf(visit);
      CallsConcat(RunCourse(e, at, data, n - 1).0, [Check, Call(visit)]);
    }
  }

  /** The course of a walk that does not fail makes the visits of the walk. */
  ghost predicate SameWalk(c: Course, w: Option<Progress>, p: Progress) {
    w == match c.left
         case None => None
         case Some(left) => Some(Progress(left, p.visits + Calls(c.events)))
  }

  lemma {:induction false} EntryCourseVisits(a: Archive, e: Entry, p: Progress)
    ensures SameWalk(EntryCourse(a, e, p.remaining), VisitEntry(a, e, p), p)
  {
    hide RunCourse, RunVisits, Calls;
    match AddOffset(a.header.tiles.offset, e.offset) {
      case None =>
      case Some(at) =>
        match ReadAt(a, at, e.length) {
          case None =>
          case Some(data) => RunCourseVisits(e, at, data, e.runLength);
        }
    }
  }

  lemma {:induction false} WalkCourseVisits(a: Archive, entries: seq<Entry>, depth: nat, p: Progress)
    requires depth <= MAX_LEAF_DEPTH
    ensures SameWalk(WalkCourse(a, entries, depth, p.remaining), Walk(a, entries, depth, p), p)
    decreases MAX_LEAF_DEPTH - depth, |entries|
  {
    hide Calls, ValidEntry, ReadDirectory, OneCourse, WalkOne;
    if entries == [] {
      assert Calls([]) == [] by { CallsOf(Visit(TileId.Tile(0, 0, 0), 0, [])); }
      assert p.visits + [] == p.visits;
    } else {
      OneCourseVisits(a, entries[0], depth, p);
      var first := OneCourse(a, entries[0], depth, p.remaining);
      if first.left.Some? {
        var q := WalkOne(a, entries[0], depth, p).value;
        WalkCourseVisits(a, entries[1..], depth, q);
        var rest := WalkCourse(a, entries[1..], depth, q.remaining);
        CourseCalls(p.visits, first.events, rest.events);
      }
    }
  }

  lemma {:induction false} CourseCalls(visits: seq<Visit>, first: seq<Event>, rest: seq<Event>)
    ensures (visits + Calls(first)) + Calls(rest) == visits + Calls(([Check] + first) + rest)
  {
    hide Calls;
    CallsOf(Visit(TileId.Tile(0, 0, 0), 0, []));
    CallsConcat([Check], first);
    CallsConcat([Check] + first, rest);
    assert [] + Calls(first) == Calls(first);
    Sequences.Associate(visits, Calls(first), Calls(rest));
  }

  lemma {:induction false} OneCourseVisits(a: Archive, e: Entry, depth: nat, p: Progress)
    requires depth <= MAX_LEAF_DEPTH
    ensures SameWalk(OneCourse(a, e, depth, p.remaining), WalkOne(a, e, depth, p), p)
    decreases MAX_LEAF_DEPTH - depth, 0
  {
    hide Calls, ValidEntry, ReadDirectory, EntryCourse, VisitEntry;
    if ValidEntry(a, e) {
      if e.runLength > 0 {
        EntryCourseVisits(a, e, p);
      } else if Leaf(a, e, depth).Some? {
        WalkCourseVisits(a, Leaf(a, e, depth).value, depth + 1, p);
      }
    }
  }

  // ----- The two walks agree -----

  function TotalBytes(vs: seq<Visit>): nat {
    if vs == [] then 0 else TotalBytes(vs[..|vs| - 1]) + |vs[|vs| - 1].data|
  }

  /** Every visit hands out bytes of the tile-data section, at most `most` of them, and a valid
      tile. */
  ghost predicate Inside(a: Archive, vs: seq<Visit>, most: nat) {
    forall v :: v in vs ==> VisitInside(a, v) && |v.data| <= most
  }

  ghost predicate VisitInside(a: Archive, v: Visit) {
    && TileId.ValidTile(v.tile)
    && a.header.tiles.offset <= v.at && v.at + |v.data| <= a.header.tiles.offset + a.header.tiles.length
    && (v.data != [] ==> v.at + |v.data| <= |a.file| && v.data == a.file[v.at..v.at + |v.data|])
  }

  /** The statistics describe the visits. */
  ghost predicate Describes(a: Archive, s: Stats, p: Progress) {
    && s.remaining == p.remaining
    && s.tiles == |p.visits|
    && s.tileBytes == TotalBytes(p.visits)
    && Inside(a, p.visits, s.maxTileBytes)
    && (p.visits == [] ==> s.maxTileBytes == 0)
    && (p.visits != [] ==> exists v :: v in p.visits && |v.data| == s.maxTileBytes)
  }

  /** Tile data can be read at all: the section is not empty, or at least its offset is a legal
      one. */
  predicate Readable(a: Archive) {
    a.header.tiles.length > 0 || a.header.tiles.offset < TWO_63
  }

  lemma {:induction false} NoBytes()
    ensures TotalBytes([]) == 0 && forall at, data :: SameData([], at, data)
  {
  }

  lemma {:induction false} TotalBytesConcat(us: seq<Visit>, vs: seq<Visit>)
    ensures TotalBytes(us + vs) == TotalBytes(us) + TotalBytes(vs)
  {
    if vs == [] {
      assert us + vs == us;
    } else {
      var n := |vs| - 1;
      assert (us + vs)[..|us + vs| - 1] == us + vs[..n];
      TotalBytesConcat(us, vs[..n]);
    }
  }

  /** Visits of one entry: n of them, each of a valid tile with the entry's data. */
  ghost predicate SameData(vs: seq<Visit>, at: nat, data: Bytes) {
    forall v :: v in vs ==> TileId.ValidTile(v.tile) && v.at == at && v.data == data
  }

  lemma {:induction false} SameDataMore(vs: seq<Visit>, at: nat, data: Bytes, tile: TileId.Tile)
    requires SameData(vs, at, data) && TileId.ValidTile(tile)
    ensures SameData(vs + [Visit(tile, at, data)], at, data)
    ensures TotalBytes(vs + [Visit(tile, at, data)]) == TotalBytes(vs) + |data|
  {
    hide TileId.ValidTile;
    var last := Visit(tile, at, data);
    assert (vs + [last])[..|vs|] == vs;
  }

  /** A run of valid identifiers is visited in full, every time with the same data. */
  lemma {:induction false} RunVisited(e: Entry, at: nat, data: Bytes, n: nat)
    requires e.tileId <= TileId.MAX_TILE_ID && n <= e.runLength && (n > 0 ==> n - 1 <= TileId.MAX_TILE_ID - e.tileId)
    ensures RunVisits(e, at, data, n).Some?
    ensures var vs := RunVisits(e, at, data, n).value;
            |vs| == n && TotalBytes(vs) == |data| * n && SameData(vs, at, data)
  {
    hide TileId.TileAt, TileId.ValidTile, SameData, TotalBytes;
    if n > 0 {
      RunVisited(e, at, data, n - 1);
      var id := e.tileId + (n - 1);
      TileId.MaxIdFits();
      TileId.TileAtValid(id);
      SameDataMore(RunVisits(e, at, data, n - 1).value, at, data, TileId.TileAt(id));
      OneMore(|data|, n);
    } else {
      NoBytes();
    }
  }

  lemma {:induction false} OneMore(size: nat, n: nat)
    requires n > 0
    ensures size * n == size * (n - 1) + size
  {
  }

  lemma {:induction false} ReadInside(a: Archive, e: Entry)
    requires Opened(a) && ValidEntry(a, e) && e.runLength > 0
    ensures AddOffset(a.header.tiles.offset, e.offset).Some? ==>
              var at := AddOffset(a.header.tiles.offset, e.offset).value;
              && (ReadAt(a, at, e.length).Some? <==> Readable(a))
              && (Readable(a) ==> |ReadAt(a, at, e.length).value| == e.length)
    ensures Readable(a) ==> AddOffset(a.header.tiles.offset, e.offset).Some?
  {
  }

  lemma {:induction false} DescribesRun(a: Archive, s: Stats, p: Progress, e: Entry, at: nat, data: Bytes,
                                        vs: seq<Visit>)
    requires Describes(a, s, p) && Count(e, s).Some? && e.runLength > 0
    requires |vs| == e.runLength && TotalBytes(vs) == |data| * e.runLength && |data| == e.length
    requires SameData(vs, at, data)
    requires a.header.tiles.offset <= at && at + |data| <= a.header.tiles.offset + a.header.tiles.length
    requires data != [] ==> at + |data| <= |a.file| && data == a.file[at..at + |data|]
    ensures Describes(a, Count(e, s).value, Progress(p.remaining - e.runLength, p.visits + vs))
  {
    hide TileId.ValidTile, TotalBytes;
    var t, q := Count(e, s).value, Progress(p.remaining - e.runLength, p.visits + vs);
    assert TotalBytes([]) == 0 by { NoBytes(); }
    TotalBytesConcat(p.visits, vs);
    forall v | v in q.visits ensures VisitInside(a, v) && |v.data| <= t.maxTileBytes {
      assert v in p.visits || v in vs;
    }
    var w := vs[0];
    assert w in vs;
    if e.length > s.maxTileBytes || p.visits == [] {
      assert w in q.visits && |w.data| == t.maxTileBytes;
    } else {
      var v :| v in p.visits && |v.data| == s.maxTileBytes;
      assert v in q.visits;
    }
  }

  lemma {:induction false} TileEntryAgrees(a: Archive, e: Entry, s: Stats, p: Progress)
    requires Opened(a) && ValidEntry(a, e) && e.runLength > 0
    requires Describes(a, s, p) && Count(e, s).Some?
    ensures VisitEntry(a, e, p).Some? <==> Readable(a)
    ensures Readable(a) ==> Describes(a, Count(e, s).value, VisitEntry(a, e, p).value)
    ensures Count(e, s).value.tiles > s.tiles
  {
    hide RunVisits, Inside, SameData, TotalBytes;
    assert s.remaining == p.remaining;
    ReadInside(a, e);
    hide Describes, ValidEntry, Opened;
    if Readable(a) {
      var at := AddOffset(a.header.tiles.offset, e.offset).value;
      var data := ReadAt(a, at, e.length).value;
      RunVisited(e, at, data, e.runLength);
      DescribesRun(a, s, p, e, at, data, RunVisits(e, at, data, e.runLength).value);
    }
  }

  /** Whatever Inspect accepts, Walk visits, and the statistics describe the visits; the one
      exception is data that cannot be read at all. */
  lemma {:induction false} WalksAgree(a: Archive, entries: seq<Entry>, depth: nat, s: Stats, p: Progress)
    requires Opened(a) && depth <= MAX_LEAF_DEPTH
    requires Describes(a, s, p) && Inspect(a, entries, depth, s).Some?
    ensures var t := Inspect(a, entries, depth, s).value;
            && t.tiles >= s.tiles
            && (Walk(a, entries, depth, p).Some? <==> Readable(a) || t.tiles == s.tiles)
            && (Walk(a, entries, depth, p).Some? ==> Describes(a, t, Walk(a, entries, depth, p).value))
    decreases MAX_LEAF_DEPTH - depth, |entries|
  {
    hide Describes, Opened, Readable, ValidEntry, Leaf, Count, VisitEntry;
    if entries != [] {
      var e := entries[0];
      OneAgrees(a, e, depth, s, p);
      var t := InspectOne(a, e, depth, s).value;
      if WalkOne(a, e, depth, p).Some? {
        WalksAgree(a, entries[1..], depth, t, WalkOne(a, e, depth, p).value);
      } else {
        BudgetSpent(a, entries[1..], depth, t);
      }
    }
  }

  lemma {:induction false} OneAgrees(a: Archive, e: Entry, depth: nat, s: Stats, p: Progress)
    requires Opened(a) && depth <= MAX_LEAF_DEPTH
    requires Describes(a, s, p) && InspectOne(a, e, depth, s).Some?
    ensures var t := InspectOne(a, e, depth, s).value;
            && t.tiles >= s.tiles
            && (WalkOne(a, e, depth, p).Some? <==> Readable(a) || t.tiles == s.tiles)
            && (WalkOne(a, e, depth, p).Some? ==> Describes(a, t, WalkOne(a, e, depth, p).value))
    decreases MAX_LEAF_DEPTH - depth, 0
  {
    hide Describes, Opened, Readable, ValidEntry, Count, VisitEntry;
    if e.runLength == 0 {
      WalksAgree(a, Leaf(a, e, depth).value, depth + 1, s, p);
    } else {
      TileEntryAgrees(a, e, s, p);
    }
  }

  /** What is left of the budget and the tiles counted always add up to the same, and tiles are only
      added. */
  lemma {:induction false} BudgetSpent(a: Archive, entries: seq<Entry>, depth: nat, s: Stats)
    requires depth <= MAX_LEAF_DEPTH && Inspect(a, entries, depth, s).Some?
    ensures var t := Inspect(a, entries, depth, s).value;
            t.tiles >= s.tiles && t.remaining + t.tiles == s.remaining + s.tiles
    decreases MAX_LEAF_DEPTH - depth, |entries|
  {
    hide Leaf, ReadDirectory, ValidEntry, Count;
    if entries != [] {
      OneSpent(a, entries[0], depth, s);
      BudgetSpent(a, entries[1..], depth, InspectOne(a, entries[0], depth, s).value);
    }
  }

  lemma {:induction false} OneSpent(a: Archive, e: Entry, depth: nat, s: Stats)
    requires depth <= MAX_LEAF_DEPTH && InspectOne(a, e, depth, s).Some?
    ensures var t := InspectOne(a, e, depth, s).value;
            t.tiles >= s.tiles && t.remaining + t.tiles == s.remaining + s.tiles
    decreases MAX_LEAF_DEPTH - depth, 0
  {
    hide ReadDirectory, ValidEntry;
    if e.runLength == 0 {
      BudgetSpent(a, Leaf(a, e, depth).value, depth + 1, s);
    }
  }

  // ----- The traversals -----

  /** Inspection of one archive: the counters that the recursion shares. */
  class Inspection {
    const a: Archive
    var stats: Stats

    constructor (a: Archive, budget: nat)
      ensures this.a == a && stats == Stats(budget, 0, 0, 0)
    {
      this.a := a;
      stats := Stats(budget, 0, 0, 0);
    }

    method Directory(entries: seq<Entry>, depth: nat) returns (ok: bool)
      requires depth <= MAX_LEAF_DEPTH
      modifies this
      ensures ok <==> Inspect(a, entries, depth, old(stats)).Some?
      ensures ok ==> stats == Inspect(a, entries, depth, old(stats)).value
      decreases MAX_LEAF_DEPTH - depth
    {
      hide ValidEntry, Count, ReadDirectory;
      ghost var goal := Inspect(a, entries, depth, stats);
      for i := 0 to |entries|
        invariant Inspect(a, entries[i..], depth, stats) == goal
      {
        var e := entries[i];
        assert entries[i..][1..] == entries[i + 1..];
        if !ValidEntry(a, e) {
          return false;
        }
        if e.runLength == 0 {
          var leaf := Leaf(a, e, depth);
          if leaf.None? {
            return false;
          }
          var entered := Directory(leaf.value, depth + 1);
          if !entered {
            return false;
          }
        } else {
          var counted := Count(e, stats);
          if counted.None? {
            return false;
          }
          stats := counted.value;
        }
      }
      ok := true;
    }
  }

  lemma {:induction false} RunBegins(before: seq<Event>, e: Entry, at: nat, data: Bytes)
    ensures before == before + RunCourse(e, at, data, 0).0 && RunCourse(e, at, data, 0).1
  {
  }

  lemma {:induction false} RunGrows(e: Entry, at: nat, data: Bytes, m: nat, n: nat)
    requires m <= n
    ensures RunCourse(e, at, data, m).0 <= RunCourse(e, at, data, n).0
    ensures !RunCourse(e, at, data, m).1 ==> RunCourse(e, at, data, n) == RunCourse(e, at, data, m)
  {
    hide TileId.TileAt;
    if m < n {
      RunGrows(e, at, data, m, n - 1);
    }
  }

  /** The next step of a run of n, of which m are done. */
  lemma {:induction false} RunGoesOn(before: seq<Event>, e: Entry, at: nat, data: Bytes, m: nat, n: nat)
    requires m < n && RunCourse(e, at, data, m).1
    ensures var done, whole := before + RunCourse(e, at, data, m).0, before + RunCourse(e, at, data, n).0;
            var id := e.tileId + m;
            && done + [Check] <= whole
            && if e.tileId > TWO_64 - 1 - m || id > TileId.MAX_TILE_ID then
                 done + [Check] == whole && !RunCourse(e, at, data, n).1
               else
                 var next := done + [Check] + [Call(Visit(TileId.TileAt(id), at, data))];
                 && next <= whole && next == before + RunCourse(e, at, data, m + 1).0
                 && RunCourse(e, at, data, m + 1).1
  {
    hide TileId.TileAt;
    RunGrows(e, at, data, m + 1, n);
  }

  lemma {:induction false} WalkGoesOn(a: Archive, entries: seq<Entry>, depth: nat, remaining: nat, events: seq<Event>)
    requires depth <= MAX_LEAF_DEPTH && entries != []
    ensures var one, whole := OneCourse(a, entries[0], depth, remaining), WalkCourse(a, entries, depth, remaining);
            && events + [Check] <= events + whole.events
            && (events + [Check]) + one.events <= events + whole.events
            && match one.left
               case None => (events + [Check]) + one.events == events + whole.events && whole.left.None?
               case Some(left) =>
                 Then(WalkCourse(a, entries[1..], depth, left), (events + [Check]) + one.events) == Then(whole, events)
  {
    hide OneCourse;
    var one := OneCourse(a, entries[0], depth, remaining);
    Sequences.Associate(events, [Check], one.events);
    if one.left.Some? {
      var rest := WalkCourse(a, entries[1..], depth, one.left.value).events;
      Sequences.Associate(events, [Check] + one.events, rest);
    }
  }

  /** A walk ends where one of its entries does. */
  lemma {:induction false} WalkEnds(a: Archive, entries: seq<Entry>, depth: nat, remaining: nat, start: seq<Event>,
                                    events: seq<Event>, fails: seq<Event> -> bool)
    requires depth <= MAX_LEAF_DEPTH && entries != []
    requires var one := OneCourse(a, entries[0], depth, remaining);
             Visits((start + [Check]) + one.events, events, fails) && !(one.left.Some? && Passed(events, fails))
    ensures var whole := WalkCourse(a, entries, depth, remaining);
            Visits(start + whole.events, events, fails) && !(whole.left.Some? && Passed(events, fails))
  {
    hide OneCourse, WalkCourse, Passed, Stopped;
    WalkGoesOn(a, entries, depth, remaining, start);
    PassedNotStopped(events, fails);
  }

  lemma {:induction false} WalkDone(a: Archive, depth: nat, remaining: nat, events: seq<Event>)
    requires depth <= MAX_LEAF_DEPTH
    ensures Then(WalkCourse(a, [], depth, remaining), events) == Course(events, Some(remaining))
  {
  }

  /** A visit of every tile: the budget and what has been done so far. Looks at the context and calls of the
      visitor may fail, depending on all of that. */
  class Visiting {
    const a: Archive
    const fails: seq<Event> -> bool
    var remaining: nat
    var events: seq<Event>

    constructor (a: Archive, budget: nat, fails: seq<Event> -> bool)
      ensures this.a == a && this.fails == fails && remaining == budget && events == []
    {
      this.a, this.fails := a, fails;
      remaining, events := budget, [];
    }

    /** One look or call. */
    method Try(e: Event) returns (ok: bool)
      requires Passed(events, fails)
      modifies this`events
      ensures events == old(events) + [e] && if ok then Passed(events, fails) else Stopped(events, fails)
    {
      PassedNext(events, e, fails);
      events := events + [e];
      ok := !fails(events);
    }

    /** Reads a tile entry once and reports it for each identifier of its run. */
    method Entry(e: Entry) returns (ok: bool)
      requires Passed(events, fails)
      modifies this
      ensures var course := EntryCourse(a, e, old(remaining));
              && Visits(old(events) + course.events, events, fails)
              && (ok <==> course.left.Some? && Passed(events, fails))
              && (ok ==> course.left == Some(remaining))
    {
      hide TileId.TileAt, TileId.ValidTile, Passed, Stopped, RunCourse;
      assert events + [] == events;
      if e.runLength > remaining || e.length > MAX_TILE_BYTES {
        return false;
      }
      var offset := AddOffset(a.header.tiles.offset, e.offset);
      if offset.None? {
        return false;
      }
      var data := ReadAt(a, offset.value, e.length);
      if data.None? {
        return false;
      }
      ghost var before := events;
      ghost var whole := before + RunCourse(e, offset.value, data.value, e.runLength).0;
      RunBegins(before, e, offset.value, data.value);
      for step := 0 to e.runLength
        invariant events == before + RunCourse(e, offset.value, data.value, step).0
        invariant RunCourse(e, offset.value, data.value, step).1
        invariant Passed(events, fails) && remaining == old(remaining)
      {
        RunGoesOn(before, e, offset.value, data.value, step, e.runLength);
        var current := Try(Check);
        PassedNotStopped(events, fails);
        if !current || e.tileId > TWO_64 - 1 - step {
          return false;
        }
        var found := TileId.IdToZxy(e.tileId + step);
        if found.AboveMaxZoom? {
          return false;
        }
        var visited := Try(Call(Visit(found.tile, offset.value, data.value)));
        PassedNotStopped(events, fails);
        if !visited {
          return false;
        }
      }
      remaining := remaining - e.runLength;
      ok := true;
    }

    method Directory(entries: seq<Entry>, depth: nat) returns (ok: bool)
      requires depth <= MAX_LEAF_DEPTH && Passed(events, fails)
      modifies this
      ensures var course := WalkCourse(a, entries, depth, old(remaining));
              && Visits(old(events) + course.events, events, fails)
              && (ok <==> course.left.Some? && Passed(events, fails))
              && (ok ==> course.left == Some(remaining))
      decreases MAX_LEAF_DEPTH - depth, 1
    {
      hide EntryCourse, Passed, Stopped, WalkCourse, Leaf;
      ghost var goal := Then(WalkCourse(a, entries, depth, remaining), events);
      for i := 0 to |entries|
        invariant Passed(events, fails)
        invariant Then(WalkCourse(a, entries[i..], depth, remaining), events) == goal
      {
        assert entries[i..][1..] == entries[i + 1..];
        WalkGoesOn(a, entries[i..], depth, remaining, events);
        ghost var left, start := remaining, events;
        var current := Try(Check);
        PassedNotStopped(events, fails);
        if !current {
          return false;
        }
        var done := One(entries[i], depth);
        if !done {
          WalkEnds(a, entries[i..], depth, left, start, events, fails);
          return false;
        }
        PassedNotStopped(events, fails);
      }
      WalkDone(a, depth, remaining, events);
      ok := true;
    }

    /** The part of the loop for one entry. */
    method One(e: Entry, depth: nat) returns (ok: bool)
      requires depth <= MAX_LEAF_DEPTH && Passed(events, fails)
      modifies this
      ensures var course := OneCourse(a, e, depth, old(remaining));
              && Visits(old(events) + course.events, events, fails)
              && (ok <==> course.left.Some? && Passed(events, fails))
              && (ok ==> course.left == Some(remaining))
      decreases MAX_LEAF_DEPTH - depth, 0
    {
      hide EntryCourse, Passed, Stopped, WalkCourse, ValidEntry, ReadDirectory;
      assert events + [] == events;
      if !ValidEntry(a, e) {
        return false;
      }
      if e.runLength == 0 {
        var leaf := Leaf(a, e, depth);
        if leaf.None? {
          return false;
        }
        ok := Directory(leaf.value, depth + 1);
        return;
      }
      ok := Entry(e);
    }
  }

  // ----- Whole archives -----

  function Budget(a: Archive): nat {
    if a.header.addressed == 0 then MAX_ADDRESSED else a.header.addressed
  }

  function InspectedTiles(a: Archive): Option<Stats> {
    match ReadDirectory(a, a.header.root, MAX_ROOT_BYTES)
    case None => None
    case Some(root) =>
      match Inspect(a, root, 0, Stats(Budget(a), 0, 0, 0))
      case None => None
      case Some(s) => if a.header.addressed != 0 && s.remaining != 0 then None else Some(s)
  }

  ghost function EveryVisit(a: Archive): Option<seq<Visit>> {
    match ReadDirectory(a, a.header.root, MAX_ROOT_BYTES)
    case None => None
    case Some(root) =>
      match Walk(a, root, 0, Progress(Budget(a), []))
      case None => None
      case Some(p) => if a.header.addressed != 0 && p.remaining != 0 then None else Some(p.visits)
  }

  /** If inspecting an archive succeeds, so does visiting its tiles, unless there are tiles but their
      section is empty at an offset that cannot be read; and the visits are as many tiles, bytes and
      at most as large as inspection said, all inside the tile-data section. */
  lemma {:induction false} InspectionDescribesVisits(a: Archive)
    requires Opened(a) && InspectedTiles(a).Some?
    ensures var s := InspectedTiles(a).value;
            && (EveryVisit(a).Some? <==> Readable(a) || s.tiles == 0)
            && (EveryVisit(a).Some? ==> Describes(a, s, Progress(s.remaining, EveryVisit(a).value)))
            && (a.header.addressed != 0 ==> s.tiles == a.header.addressed)
  {
    var root := ReadDirectory(a, a.header.root, MAX_ROOT_BYTES).value;
    var start := Stats(Budget(a), 0, 0, 0);
    WalksAgree(a, root, 0, start, Progress(Budget(a), []));
    BudgetSpent(a, root, 0, start);
  }

  // ----- What an archive holds -----

  /** The directory that some bytes of the file are. */
  function DirectoryAt(a: Archive, from: nat, length: nat): Option<seq<Entry>> {
    if from + length > |a.file| then None
    else
      match a.expand(a.file[from..from + length])
      case None => None
      case Some(raw) => Deserialized(raw)
  }

  /** The leaf directory of an entry lies at the entry's offset in the section of leaf directories. */
  function LeafEntries(a: Archive, e: Entry): Option<seq<Entry>> {
    DirectoryAt(a, a.header.leaves.offset + e.offset, e.length)
  }

  function RootEntries(a: Archive): Option<seq<Entry>> {
    DirectoryAt(a, a.header.root.offset, a.header.root.length)
  }

  /** Leaf finds it, down to four levels and up to 32 MiB. */
  lemma {:induction false} LeafExact(a: Archive, e: Entry, depth: nat)
    requires Opened(a) && ValidEntry(a, e) && e.runLength == 0
    ensures Leaf(a, e, depth) == if depth < 4 && e.length <= 33554432 then LeafEntries(a, e) else None
  {
    hide Deserialized;
  }

  lemma {:induction false} LeafFound(a: Archive, e: Entry, depth: nat)
    requires Leaf(a, e, depth).Some?
    ensures depth < MAX_LEAF_DEPTH && LeafEntries(a, e) == Leaf(a, e, depth)
  {
    hide Deserialized;
  }

  lemma {:induction false} RootExact(a: Archive)
    requires Opened(a)
    ensures ReadDirectory(a, a.header.root, MAX_ROOT_BYTES) == RootEntries(a)
  {
    hide Deserialized;
  }

  lemma {:induction false} RootFound(a: Archive)
    requires ReadDirectory(a, a.header.root, MAX_ROOT_BYTES).Some?
    ensures ReadDirectory(a, a.header.root, MAX_ROOT_BYTES) == RootEntries(a)
  {
    hide Deserialized;
  }

  /** The tile entries of a directory and of the leaves it points to, as they are come upon. */
  ghost function TileEntries(a: Archive, entries: seq<Entry>, depth: nat): seq<Entry>
    requires depth <= MAX_LEAF_DEPTH
    decreases MAX_LEAF_DEPTH - depth, |entries|
  {
    if entries == [] then [] else EntriesOf(a, entries[0], depth) + TileEntries(a, entries[1..], depth)
  }

  /** A tile entry is one; any other stands for those of its leaf. */
  ghost function EntriesOf(a: Archive, e: Entry, depth: nat): seq<Entry>
    requires depth <= MAX_LEAF_DEPTH
    decreases MAX_LEAF_DEPTH - depth, 0
  {
    if e.runLength > 0 then [e]
    else if depth < MAX_LEAF_DEPTH && LeafEntries(a, e).Some? then
      TileEntries(a, LeafEntries(a, e).value, depth + 1)
    else []
  }

  /** The bytes of a tile lie at its entry's offset in the section of tile data. */
  function DataOf(a: Archive, e: Entry): Bytes {
    var from := a.header.tiles.offset + e.offset;
    if from + e.length <= |a.file| then a.file[from..from + e.length] else []
  }

  /** What an entry stands for: its bytes, for each identifier of its run. */
  ghost function EntryVisits(a: Archive, e: Entry, n: nat): (vs: seq<Visit>)
    ensures |vs| == n
  {
    seq(n, i requires 0 <= i < n => Visit(TileId.TileAt(e.tileId + i), a.header.tiles.offset + e.offset, DataOf(a, e)))
  }

  /** The tiles of an archive, with their bytes. */
  ghost function AllVisits(a: Archive, es: seq<Entry>): seq<Visit> {
    if es == [] then [] else EntryVisits(a, es[0], es[0].runLength) + AllVisits(a, es[1..])
  }

  lemma {:induction false} AllVisitsConcat(a: Archive, es: seq<Entry>, fs: seq<Entry>)
    ensures AllVisits(a, es + fs) == AllVisits(a, es) + AllVisits(a, fs)
  {
    hide EntryVisits;
    if es == [] {
      assert es + fs == fs;
    } else {
      assert (es + fs)[1..] == es[1..] + fs;
      AllVisitsConcat(a, es[1..], fs);
      Sequences.Associate(EntryVisits(a, es[0], es[0].runLength), AllVisits(a, es[1..]), AllVisits(a, fs));
    }
  }

  lemma {:induction false} AllVisitsOne(a: Archive, e: Entry)
    ensures AllVisits(a, [e]) == EntryVisits(a, e, e.runLength) && AllVisits(a, []) == []
  {
    hide EntryVisits;
    assert [e][1..] == [];
  }

  lemma {:induction false} DataRead(a: Archive, e: Entry)
    requires AddOffset(a.header.tiles.offset, e.offset).Some?
    requires ReadAt(a, AddOffset(a.header.tiles.offset, e.offset).value, e.length).Some?
    ensures AddOffset(a.header.tiles.offset, e.offset).value == a.header.tiles.offset + e.offset
    ensures ReadAt(a, AddOffset(a.header.tiles.offset, e.offset).value, e.length).value == DataOf(a, e)
  {
  }

  lemma {:induction false} RunVisitsExact(a: Archive, e: Entry, n: nat)
    requires RunVisits(e, a.header.tiles.offset + e.offset, DataOf(a, e), n).Some?
    ensures RunVisits(e, a.header.tiles.offset + e.offset, DataOf(a, e), n).value == EntryVisits(a, e, n)
  {
    hide TileId.TileAt, DataOf;
    if n > 0 {
      RunVisitsExact(a, e, n - 1);
    }
  }

  lemma {:induction false} EntryExact(a: Archive, e: Entry, p: Progress)
    requires VisitEntry(a, e, p).Some?
    ensures VisitEntry(a, e, p).value.visits == p.visits + EntryVisits(a, e, e.runLength)
  {
    hide RunVisits, EntryVisits, ReadAt, AddOffset, DataOf;
    DataRead(a, e);
    RunVisitsExact(a, e, e.runLength);
  }

  /** A walk adds exactly the tiles of the entries, in their order and with their own bytes. */
  lemma {:induction false} WalkExact(a: Archive, entries: seq<Entry>, depth: nat, p: Progress)
    requires depth <= MAX_LEAF_DEPTH && Walk(a, entries, depth, p).Some?
    ensures Walk(a, entries, depth, p).value.visits == p.visits + AllVisits(a, TileEntries(a, entries, depth))
    decreases MAX_LEAF_DEPTH - depth, |entries|
  {
    hide Leaf, ValidEntry, VisitEntry, AllVisits, EntryVisits, EntriesOf, WalkOne;
    if entries == [] {
      AllVisitsOne(a, Entry(0, 0, 0, 1));
      assert p.visits + [] == p.visits;
    } else {
      var e := entries[0];
      OneExact(a, e, depth, p);
      var q := WalkOne(a, e, depth, p).value;
      WalkExact(a, entries[1..], depth, q);
      var first, rest := EntriesOf(a, e, depth), TileEntries(a, entries[1..], depth);
      AllVisitsConcat(a, first, rest);
      Sequences.Associate(p.visits, AllVisits(a, first), AllVisits(a, rest));
    }
  }

  lemma {:induction false} OneExact(a: Archive, e: Entry, depth: nat, p: Progress)
    requires depth <= MAX_LEAF_DEPTH && WalkOne(a, e, depth, p).Some?
    ensures WalkOne(a, e, depth, p).value.visits == p.visits + AllVisits(a, EntriesOf(a, e, depth))
    decreases MAX_LEAF_DEPTH - depth, 0
  {
    hide Leaf, LeafEntries, ValidEntry, VisitEntry, AllVisits, EntryVisits;
    if e.runLength == 0 {
      LeafFound(a, e, depth);
      WalkExact(a, Leaf(a, e, depth).value, depth + 1, p);
    } else {
      EntryExact(a, e, p);
      AllVisitsOne(a, e);
    }
  }

  /** The visits of an archive are its tiles: those of the entries under its root, each with the bytes its own
      entry names. */
  lemma {:induction false} VisitsExact(a: Archive)
    requires EveryVisit(a).Some?
    ensures RootEntries(a).Some?
    ensures EveryVisit(a).value == AllVisits(a, TileEntries(a, RootEntries(a).value, 0))
  {
    hide Walk, TileEntries, ReadDirectory, RootEntries, AllVisits;
    RootFound(a);
    WalkExact(a, RootEntries(a).value, 0, Progress(Budget(a), []));
    assert [] + AllVisits(a, TileEntries(a, RootEntries(a).value, 0))
           == AllVisits(a, TileEntries(a, RootEntries(a).value, 0));
  }

  /** These visits are the tiles of the archive. */
  ghost predicate VisitsAll(a: Archive, visits: seq<Visit>) {
    RootEntries(a).Some? && visits == AllVisits(a, TileEntries(a, RootEntries(a).value, 0))
  }

  // ----- Which archives are accepted -----

  /** Every entry stays within its section, runs within the supported identifiers, tiles within 64 MiB, and
      every leaf is a directory of which the same can be said. */
  ghost predicate Sound(a: Archive, entries: seq<Entry>, depth: nat)
    requires depth <= MAX_LEAF_DEPTH
    decreases MAX_LEAF_DEPTH - depth, |entries|
  {
    entries == [] || (SoundEntry(a, entries[0], depth) && Sound(a, entries[1..], depth))
  }

  ghost predicate SoundEntry(a: Archive, e: Entry, depth: nat)
    requires depth <= MAX_LEAF_DEPTH
    decreases MAX_LEAF_DEPTH - depth, 0
  {
    if e.runLength == 0 then
      && e.offset + e.length <= a.header.leaves.length && e.length <= 33554432 && depth < MAX_LEAF_DEPTH
      && LeafEntries(a, e).Some? && Sound(a, LeafEntries(a, e).value, depth + 1)
    else
      && e.offset + e.length <= a.header.tiles.length && e.length <= 67108864
      && e.tileId + e.runLength - 1 <= TileId.MAX_TILE_ID
  }

  function TilesOf(es: seq<Entry>): nat {
    if es == [] then 0 else es[0].runLength + TilesOf(es[1..])
  }

  function BytesOf(es: seq<Entry>): nat {
    if es == [] then 0 else es[0].length * es[0].runLength + BytesOf(es[1..])
  }

  function LongestOf(es: seq<Entry>, most: nat): nat {
    if es == [] then most else LongestOf(es[1..], if es[0].length > most then es[0].length else most)
  }

  lemma {:induction false} SumsConcat(es: seq<Entry>, fs: seq<Entry>, most: nat)
    ensures TilesOf(es + fs) == TilesOf(es) + TilesOf(fs) && BytesOf(es + fs) == BytesOf(es) + BytesOf(fs)
    ensures LongestOf(es + fs, most) == LongestOf(fs, LongestOf(es, most))
  {
    if es == [] {
      assert es + fs == fs;
    } else {
      assert (es + fs)[1..] == es[1..] + fs;
      SumsConcat(es[1..], fs, if es[0].length > most then es[0].length else most);
    }
  }

  /** The statistics once these tile entries have been counted, if the budget and 64 bits allow it. */
  function Counted(es: seq<Entry>, s: Stats): Option<Stats> {
    if TilesOf(es) > s.remaining || s.tileBytes + BytesOf(es) >= TWO_64 then None
    else Some(Stats(s.remaining - TilesOf(es), s.tiles + TilesOf(es), s.tileBytes + BytesOf(es),
                    LongestOf(es, s.maxTileBytes)))
  }

  predicate Bounded(s: Stats) {
    s.remaining + s.tiles < TWO_64 && s.tileBytes < TWO_64
  }

  lemma {:induction false} CountExact(e: Entry, s: Stats)
    requires Bounded(s) && e.runLength > 0
    ensures Count(e, s) == if e.length <= 67108864 then Counted([e], s) else None
  {
    hide TilesOf, BytesOf, LongestOf;
    SumsOne(e, s.maxTileBytes);
    var n, k := e.length, e.runLength;
    if n > (TWO_64 - 1) / k {
      TooMany(n, k);
    } else {
      FewEnough(n, k);
    }
  }

  lemma {:induction false} SumsOne(e: Entry, most: nat)
    ensures TilesOf([e]) == e.runLength && BytesOf([e]) == e.length * e.runLength
    ensures LongestOf([e], most) == if e.length > most then e.length else most
  {
    assert [e][1..] == [];
  }

  lemma {:induction false} TooMany(n: nat, k: nat)
    requires k > 0 && n > (TWO_64 - 1) / k
    ensures n * k >= TWO_64
  {
    var q := (TWO_64 - 1) / k;
    assert TWO_64 - 1 < q * k + k;
    assert n * k >= (q + 1) * k;
  }

  lemma {:induction false} FewEnough(n: nat, k: nat)
    requires k > 0 && n <= (TWO_64 - 1) / k
    ensures n * k < TWO_64
  {
    var q := (TWO_64 - 1) / k;
    assert q * k <= TWO_64 - 1;
    assert n * k <= q * k;
  }

  lemma {:induction false} CountedTwice(es: seq<Entry>, fs: seq<Entry>, s: Stats)
    requires Bounded(s)
    ensures Counted(es + fs, s) == match Counted(es, s)
                                   case None => None
                                   case Some(t) => Counted(fs, t)
    ensures Counted(es, s).Some? ==> Bounded(Counted(es, s).value)
  {
    SumsConcat(es, fs, s.maxTileBytes);
  }

  lemma {:induction false} CountedNone(s: Stats)
    requires Bounded(s)
    ensures Counted([], s) == Some(s)
  {
  }

  /** Inspection accepts exactly the sound directories whose tiles the budget and whose bytes 64 bits can
      count, and counts them. */
  lemma {:induction false} InspectExact(a: Archive, entries: seq<Entry>, depth: nat, s: Stats)
    requires Opened(a) && depth <= MAX_LEAF_DEPTH && Bounded(s)
    ensures Inspect(a, entries, depth, s)
            == if Sound(a, entries, depth) then Counted(TileEntries(a, entries, depth), s) else None
    decreases MAX_LEAF_DEPTH - depth, |entries|
  {
    hide InspectOne, SoundEntry, EntriesOf, Counted, Opened, Bounded;
    if entries == [] {
      CountedNone(s);
    } else {
      var e := entries[0];
      InspectOneExact(a, e, depth, s);
      CountedTwice(EntriesOf(a, e, depth), TileEntries(a, entries[1..], depth), s);
      if InspectOne(a, e, depth, s).Some? {
        InspectExact(a, entries[1..], depth, InspectOne(a, e, depth, s).value);
      }
    }
  }

  lemma {:induction false} InspectOneExact(a: Archive, e: Entry, depth: nat, s: Stats)
    requires Opened(a) && depth <= MAX_LEAF_DEPTH && Bounded(s)
    ensures InspectOne(a, e, depth, s) == if SoundEntry(a, e, depth) then Counted(EntriesOf(a, e, depth), s) else None
    decreases MAX_LEAF_DEPTH - depth, 0
  {
    hide Leaf, LeafEntries, Counted, Count, Opened, Bounded;
    if e.runLength > 0 {
      CountExact(e, s);
    } else if ValidEntry(a, e) {
      LeafExact(a, e, depth);
      if Leaf(a, e, depth).Some? {
        InspectExact(a, LeafEntries(a, e).value, depth + 1, s);
      }
    }
  }

  /** An opened archive passes inspection exactly if its root is a sound directory with the declared number of
      tiles, or any up to 2^32 where none is declared; and then the statistics are those of its entries. */
  lemma {:induction false} InspectedExact(a: Archive)
    requires Opened(a)
    ensures InspectedTiles(a).Some? <==>
              && RootEntries(a).Some? && Sound(a, RootEntries(a).value, 0)
              && var es := TileEntries(a, RootEntries(a).value, 0);
                 && BytesOf(es) < TWO_64
                 && if a.header.addressed == 0 then TilesOf(es) <= 0x1_0000_0000 else TilesOf(es) == a.header.addressed
    ensures InspectedTiles(a).Some? ==>
              var s, es := InspectedTiles(a).value, TileEntries(a, RootEntries(a).value, 0);
              s.tiles == TilesOf(es) && s.tileBytes == BytesOf(es) && s.maxTileBytes == LongestOf(es, 0)
  {
    hide Inspect, Sound, TileEntries, ReadDirectory, RootEntries;
    RootExact(a);
    if RootEntries(a).Some? {
      InspectExact(a, RootEntries(a).value, 0, Stats(Budget(a), 0, 0, 0));
    }
  }

  // ----- The order of the visits -----

  function RunId(e: Entry, i: nat): nat {
    e.tileId + i
  }

  function RunIds(e: Entry, n: nat): (ids: seq<nat>)
    ensures |ids| == n
  {
    seq(n, i requires 0 <= i < n => RunId(e, i))
  }

  function AllIds(es: seq<Entry>): seq<nat> {
    if es == [] then [] else RunIds(es[0], es[0].runLength) + AllIds(es[1..])
  }

  /** The identifier of a visited tile; every one of them is inside the grid of its zoom. */
  function VisitId(v: Visit): nat {
    if TileId.InGrid(TileId.Cell(v.tile.x, v.tile.y), v.tile.z) then TileId.IdOf(v.tile) else 0
  }

  function VisitIds(vs: seq<Visit>): (ids: seq<nat>)
    ensures |ids| == |vs|
  {
    seq(|vs|, i requires 0 <= i < |vs| => VisitId(vs[i]))
  }

  ghost predicate StrictlyAscending(ids: seq<nat>) {
    forall i, j :: 0 <= i < j < |ids| ==> ids[i] < ids[j]
  }

  /** Each run ends before the next begins. */
  ghost predicate RunsApart(es: seq<Entry>) {
    forall i :: 0 < i < |es| ==> es[i - 1].tileId + es[i - 1].runLength <= es[i].tileId
  }

  ghost predicate Running(es: seq<Entry>) {
    forall i :: 0 <= i < |es| ==> es[i].runLength > 0
  }

  lemma {:induction false} AllIdsConcat(es: seq<Entry>, fs: seq<Entry>)
    ensures AllIds(es + fs) == AllIds(es) + AllIds(fs)
  {
    hide RunIds;
    if es == [] {
      assert es + fs == fs;
    } else {
      assert (es + fs)[1..] == es[1..] + fs;
      AllIdsConcat(es[1..], fs);
      Sequences.Associate(RunIds(es[0], es[0].runLength), AllIds(es[1..]), AllIds(fs));
    }
  }

  lemma {:induction false} AllIdsOne(e: Entry)
    ensures AllIds([e]) == RunIds(e, e.runLength)
  {
    assert [e][1..] == [];
  }

  lemma {:induction false} TileEntriesRun(a: Archive, entries: seq<Entry>, depth: nat)
    requires depth <= MAX_LEAF_DEPTH
    ensures Running(TileEntries(a, entries, depth))
    decreases MAX_LEAF_DEPTH - depth, |entries|
  {
    hide LeafEntries;
    if entries != [] {
      var e := entries[0];
      if e.runLength == 0 && depth < MAX_LEAF_DEPTH && LeafEntries(a, e).Some? {
        TileEntriesRun(a, LeafEntries(a, e).value, depth + 1);
      }
      TileEntriesRun(a, entries[1..], depth);
    }
  }

  lemma {:induction false} EntryVisitIds(a: Archive, e: Entry, n: nat)
    requires n == 0 || e.tileId + n - 1 <= TileId.MAX_TILE_ID
    ensures VisitIds(EntryVisits(a, e, n)) == RunIds(e, n)
  {
    hide TileId.TileAt, TileId.IdOf, TileId.InGrid, DataOf;
    forall i | 0 <= i < n ensures VisitId(EntryVisits(a, e, n)[i]) == RunId(e, i) {
      TileId.IdOfTileAt(e.tileId + i);
    }
  }

  ghost predicate Supported(es: seq<Entry>) {
    forall e :: e in es ==> e.runLength == 0 || e.tileId + e.runLength - 1 <= TileId.MAX_TILE_ID
  }

  /** The identifiers of the tiles are those of the entries, run by run. */
  lemma {:induction false} AllVisitIds(a: Archive, es: seq<Entry>)
    requires Supported(es)
    ensures VisitIds(AllVisits(a, es)) == AllIds(es)
  {
    hide RunIds, EntryVisits, VisitId;
    if es != [] {
      assert es[0] in es;
      EntryVisitIds(a, es[0], es[0].runLength);
      AllVisitIds(a, es[1..]);
      VisitIdsConcat(EntryVisits(a, es[0], es[0].runLength), AllVisits(a, es[1..]));
    }
  }

  lemma {:induction false} VisitIdsConcat(us: seq<Visit>, vs: seq<Visit>)
    ensures VisitIds(us + vs) == VisitIds(us) + VisitIds(vs)
  {
    hide VisitId;
  }

  lemma {:induction false} SupportedConcat(es: seq<Entry>, fs: seq<Entry>)
    ensures Supported(es) && Supported(fs) ==> Supported(es + fs)
  {
  }

  lemma {:induction false} WalkSupported(a: Archive, entries: seq<Entry>, depth: nat, p: Progress)
    requires depth <= MAX_LEAF_DEPTH && Walk(a, entries, depth, p).Some?
    ensures Supported(TileEntries(a, entries, depth))
    decreases MAX_LEAF_DEPTH - depth, |entries|
  {
    hide Leaf, LeafEntries, VisitEntry, Supported;
    if entries == [] {
      NoneSupported();
    } else {
      var e := entries[0];
      if e.runLength == 0 {
        LeafFound(a, e, depth);
        WalkSupported(a, Leaf(a, e, depth).value, depth + 1, p);
      } else {
        ValidSupported(a, e);
      }
      WalkSupported(a, entries[1..], depth, WalkOne(a, e, depth, p).value);
      SupportedConcat(EntriesOf(a, e, depth), TileEntries(a, entries[1..], depth));
    }
  }

  lemma {:induction false} NoneSupported()
    ensures Supported([])
  {
  }

  lemma {:induction false} ValidSupported(a: Archive, e: Entry)
    requires ValidEntry(a, e) && e.runLength > 0
    ensures Supported([e])
  {
  }

  /** What begins with a run ascends exactly when the rest does and begins after the run. */
  lemma {:induction false} RunThenRest(e: Entry, rest: seq<nat>)
    requires e.runLength > 0
    ensures StrictlyAscending(RunIds(e, e.runLength) + rest)
            <==> StrictlyAscending(rest) && (rest != [] ==> e.tileId + e.runLength <= rest[0])
  {
    var n := e.runLength;
    var ids := RunIds(e, n) + rest;
    if StrictlyAscending(ids) {
      forall i, j | 0 <= i < j < |rest| ensures rest[i] < rest[j] {
        assert ids[n + i] < ids[n + j];
      }
      if rest != [] {
        assert ids[n - 1] < ids[n + 0];
      }
    }
    if StrictlyAscending(rest) && (rest != [] ==> e.tileId + n <= rest[0]) {
      forall i, j | 0 <= i < j < |ids| ensures ids[i] < ids[j] {
        if i < n <= j {
          assert rest[0] <= rest[j - n];
        } else if n <= i {
          assert rest[i - n] < rest[j - n];
        }
      }
    }
  }

  lemma {:induction false} ApartIffAscending(es: seq<Entry>)
    requires Running(es)
    ensures StrictlyAscending(AllIds(es)) <==> RunsApart(es)
    ensures es != [] ==> AllIds(es) != [] && AllIds(es)[0] == es[0].tileId
  {
    hide StrictlyAscending;
    if es == [] {
      AscendingNone();
    } else {
      var e, rest := es[0], es[1..];
      assert Running(rest);
      ApartIffAscending(rest);
      RunThenRest(e, AllIds(rest));
      ApartFirst(es);
    }
  }

  lemma {:induction false} AscendingNone()
    ensures StrictlyAscending([])
  {
  }

  lemma {:induction false} ApartFirst(es: seq<Entry>)
    requires es != []
    ensures RunsApart(es)
            <==> RunsApart(es[1..]) && (|es| > 1 ==> es[0].tileId + es[0].runLength <= es[1].tileId)
  {
    var rest := es[1..];
    if RunsApart(rest) {
      forall i | 1 < i < |es| ensures es[i - 1].tileId + es[i - 1].runLength <= es[i].tileId {
        assert rest[i - 2] == es[i - 1] && rest[i - 1] == es[i];
      }
    }
    if RunsApart(es) {
      forall i | 0 < i < |rest| ensures rest[i - 1].tileId + rest[i - 1].runLength <= rest[i].tileId {
        assert rest[i - 1] == es[i + 1 - 1] && rest[i] == es[i + 1];
      }
    }
  }

  /** The visits come in ascending order of their identifiers exactly when every run ends before the
      next one begins; a directory alone only makes sure that runs do not begin in descending order. */
  lemma {:induction false} VisitsAscendIff(a: Archive)
    requires EveryVisit(a).Some?
    ensures RootEntries(a).Some?
    ensures StrictlyAscending(VisitIds(EveryVisit(a).value)) <==> RunsApart(TileEntries(a, RootEntries(a).value, 0))
  {
    hide Walk, TileEntries, ReadDirectory, RootEntries, VisitIds, AllIds, AllVisits, StrictlyAscending, RunsApart;
    VisitsExact(a);
    RootFound(a);
    var es := TileEntries(a, RootEntries(a).value, 0);
    WalkSupported(a, RootEntries(a).value, 0, Progress(Budget(a), []));
    AllVisitIds(a, es);
    TileEntriesRun(a, RootEntries(a).value, 0);
    ApartIffAscending(es);
  }

  // ----- Two archives that part from what is promised -----

  /** An archive of one byte whose root holds these entries; tile data begins at `tiles`. */
  ghost function SmallArchive(entries: seq<Entry>, tiles: nat): Archive {
    Archive([0], Header(Section(0, 1), Section(0, 0), Section(tiles, 0), |entries|), _ => Some(Serialized(entries)))
  }

  lemma {:induction false} SmallRoot(entries: seq<Entry>, tiles: nat)
    requires AllEntries(entries) && Survives(entries) && 1 <= |entries| <= 2 && IsWord(tiles)
    ensures var a := SmallArchive(entries, tiles);
            && Opened(a) && Budget(a) == |entries| && a.header.addressed == |entries|
            && ReadDirectory(a, a.header.root, MAX_ROOT_BYTES) == Some(entries)
  {
    hide Serialized, Deserialized, Survives;
    DirectoryRoundTrip(entries);
  }

  /** One tile without bytes, in a section beyond any file: inspection accepts it, reading does not. */
  lemma {:induction false} UnreadableTile()
    ensures var a := SmallArchive([Entry(0, 0, 0, 1)], TWO_63);
            Opened(a) && InspectedTiles(a) == Some(Stats(0, 1, 0, 0)) && EveryVisit(a).None?
  {
    hide ReadDirectory, Serialized, Deserialized, EveryVisit, Describes, Inspect, InspectOne;
    var e := Entry(0, 0, 0, 1);
    var a := SmallArchive([e], TWO_63);
    SmallRoot([e], TWO_63);
    InspectEmpty(a, Stats(1, 0, 0, 0));
    InspectionDescribesVisits(a);
  }

  /** Inspecting an entry without bytes counts one tile. */
  lemma {:induction false} InspectEmpty(a: Archive, s: Stats)
    requires s.remaining > 0 && s.tileBytes == s.maxTileBytes == 0 && s.tiles < 2
    ensures Inspect(a, [Entry(0, 0, 0, 1)], 0, s) == Some(Stats(s.remaining - 1, s.tiles + 1, 0, 0))
  {
    hide ReadDirectory;
    var e, t := Entry(0, 0, 0, 1), Stats(s.remaining - 1, s.tiles + 1, 0, 0);
    assert [e][1..] == [];
    assert ValidEntry(a, e);
    assert Count(e, s) == Some(t);
    assert InspectOne(a, e, 0, s) == Some(t);
    assert Inspect(a, [e][1..], 0, t) == Some(t);
    assert Inspect(a, [e], 0, s) == Some(t);
  }

  /** Two entries for one tile: it is visited twice. */
  lemma {:induction false} TileVisitedTwice()
    ensures var a := SmallArchive([Entry(0, 0, 0, 1), Entry(0, 0, 0, 1)], 0);
            && Opened(a) && InspectedTiles(a) == Some(Stats(0, 2, 0, 0))
            && EveryVisit(a).Some? && VisitIds(EveryVisit(a).value) == [0, 0]
  {
    hide ReadDirectory, Serialized, Deserialized, Inspect, InspectOne, Walk, Describes, TileEntries, AllIds, VisitIds,
         RunIds, RootEntries, AllVisits, Supported;
    var e := Entry(0, 0, 0, 1);
    var a := SmallArchive([e, e], 0);
    SmallRoot([e, e], 0);
    InspectTwice(a);
    InspectionDescribesVisits(a);
    RootFound(a);
    VisitsExact(a);
    WalkSupported(a, [e, e], 0, Progress(2, []));
    AllVisitIds(a, TileEntries(a, [e, e], 0));
    TwoEntries(a);
  }

  lemma {:induction false} InspectTwice(a: Archive)
    ensures Inspect(a, [Entry(0, 0, 0, 1), Entry(0, 0, 0, 1)], 0, Stats(2, 0, 0, 0)) == Some(Stats(0, 2, 0, 0))
  {
    hide ReadDirectory;
    var e := Entry(0, 0, 0, 1);
    assert [e, e][1..] == [e];
    InspectEmpty(a, Stats(2, 0, 0, 0));
    InspectEmpty(a, Stats(1, 1, 0, 0));
    assert InspectOne(a, e, 0, Stats(2, 0, 0, 0)) == Some(Stats(1, 1, 0, 0));
  }

  lemma {:induction false} OneEntry(a: Archive, e: Entry, rest: seq<Entry>)
    requires e.runLength > 0
    ensures TileEntries(a, [e] + rest, 0) == [e] + TileEntries(a, rest, 0)
  {
    hide LeafEntries;
    assert ([e] + rest)[1..] == rest;
  }

  lemma {:induction false} TwoEntries(a: Archive)
    ensures var e := Entry(0, 0, 0, 1); AllIds(TileEntries(a, [e, e], 0)) == [0, 0]
  {
    hide LeafEntries, EntriesOf, AllIds;
    var e := Entry(0, 0, 0, 1);
    OneEntry(a, e, [e]);
    OneEntry(a, e, []);
    assert [e] + [e] == [e, e] && [e] + [] == [e] && TileEntries(a, [], 0) == [];
    AllIdsConcat([e], [e]);
    AllIdsOne(e);
  }

  // ----- The entry points of the code -----

  method InspectTiles(a: Archive) returns (r: Option<Stats>)
    ensures r == InspectedTiles(a)
  {
    hide Inspect, ReadDirectory;
    var root := ReadDirectory(a, a.header.root, MAX_ROOT_BYTES);
    if root.None? {
      return None;
    }
    var inspection := new Inspection(a, Budget(a));
    var ok := inspection.Directory(root.value, 0);
    if !ok || (a.header.addressed != 0 && inspection.stats.remaining != 0) {
      return None;
    }
    r := Some(inspection.stats);
  }

  /** The course of a whole visit: it begins with a look at the context, and ends well only with the number of
      tiles that the header declares, if it declares one. */
  ghost function WholeCourse(a: Archive): Course {
    match ReadDirectory(a, a.header.root, MAX_ROOT_BYTES)
    case None => Course([Check], None)
    case Some(root) =>
      var course := Then(WalkCourse(a, root, 0, Budget(a)), [Check]);
      if a.header.addressed != 0 && course.left.Some? && course.left.value != 0 then Course(course.events, None)
      else course
  }

  lemma {:induction false} WholeCourseVisits(a: Archive)
    ensures var course := WholeCourse(a);
            EveryVisit(a) == if course.left.Some? then Some(Calls(course.events)) else None
    ensures WholeCourse(a).left.Some? ==> VisitsAll(a, Calls(WholeCourse(a).events))
  {
    hide ReadDirectory, Walk, WalkCourse, Calls, RootEntries, TileEntries, AllVisits;
    var root := ReadDirectory(a, a.header.root, MAX_ROOT_BYTES);
    if root.Some? {
      WalkCourseVisits(a, root.value, 0, Progress(Budget(a), []));
      var events := WalkCourse(a, root.value, 0, Budget(a)).events;
      CallsOf(Visit(TileId.Tile(0, 0, 0), 0, []));
      CallsConcat([Check], events);
      assert [] + Calls(events) == Calls(events);
      if EveryVisit(a).Some? {
        VisitsExact(a);
      }
    }
  }

  /** Every call of the visitor comes right after a look at the context. */
  ghost predicate LooksFirst(events: seq<Event>) {
    forall i :: 0 <= i < |events| && events[i].Call? ==> i > 0 && events[i - 1].Check?
  }

  lemma {:induction false} LooksConcat(es: seq<Event>, fs: seq<Event>)
    requires LooksFirst(es) && LooksFirst(fs)
    ensures LooksFirst(es + fs)
  {
    var all := es + fs;
    forall i | 0 <= i < |all| && all[i].Call? ensures i > 0 && all[i - 1].Check? {
      if i >= |es| {
        assert fs[i - |es|].Call?;
        assert all[i - 1] == fs[i - |es| - 1];
      }
    }
  }

  lemma {:induction false} RunLooks(e: Entry, at: nat, data: Bytes, n: nat)
    ensures LooksFirst(RunCourse(e, at, data, n).0)
  {
    hide TileId.TileAt, LooksFirst;
    NothingLooks();
    if n > 0 {
      RunLooks(e, at, data, n - 1);
      var visit := Visit(TileId.TileAt(e.tileId + (n - 1)), at, data);
      OneLooks(visit);
      LooksConcat(RunCourse(e, at, data, n - 1).0, [Check]);
      LooksConcat(RunCourse(e, at, data, n - 1).0, [Check, Call(visit)]);
    }
  }

  lemma {:induction false} NothingLooks()
    ensures LooksFirst([]) && LooksFirst([Check])
  {
  }

  lemma {:induction false} OneLooks(visit: Visit)
    ensures LooksFirst([Check, Call(visit)])
  {
  }

  lemma {:induction false} WalkLooks(a: Archive, entries: seq<Entry>, depth: nat, remaining: nat)
    requires depth <= MAX_LEAF_DEPTH
    ensures LooksFirst(WalkCourse(a, entries, depth, remaining).events)
    decreases MAX_LEAF_DEPTH - depth, |entries|
  {
    hide OneCourse, LooksFirst;
    NothingLooks();
    if entries != [] {
      OneWalkLooks(a, entries[0], depth, remaining);
      var one := OneCourse(a, entries[0], depth, remaining);
      LooksConcat([Check], one.events);
      if one.left.Some? {
        WalkLooks(a, entries[1..], depth, one.left.value);
        LooksConcat([Check] + one.events, WalkCourse(a, entries[1..], depth, one.left.value).events);
      }
    }
  }

  lemma {:induction false} OneWalkLooks(a: Archive, e: Entry, depth: nat, remaining: nat)
    requires depth <= MAX_LEAF_DEPTH
    ensures LooksFirst(OneCourse(a, e, depth, remaining).events)
    decreases MAX_LEAF_DEPTH - depth, 0
  {
    hide LooksFirst, ValidEntry, Leaf, RunCourse, ReadAt, AddOffset;
    NothingLooks();
    if ValidEntry(a, e) {
      if e.runLength == 0 {
        if Leaf(a, e, depth).Some? {
          LeafFound(a, e, depth);
          WalkLooks(a, Leaf(a, e, depth).value, depth + 1, remaining);
        }
      } else if AddOffset(a.header.tiles.offset, e.offset).Some? {
        var at := AddOffset(a.header.tiles.offset, e.offset).value;
        if ReadAt(a, at, e.length).Some? {
          RunLooks(e, at, ReadAt(a, at, e.length).value, e.runLength);
        }
      }
    }
  }

  /** A whole visit begins with a look at the context, and looks again before each call of the visitor. */
  lemma {:induction false} VisitsLookFirst(a: Archive)
    ensures LooksFirst(WholeCourse(a).events) && WholeCourse(a).events != [] && WholeCourse(a).events[0] == Check
  {
    hide ReadDirectory, WalkCourse, LooksFirst;
    NothingLooks();
    var root := ReadDirectory(a, a.header.root, MAX_ROOT_BYTES);
    if root.Some? {
      WalkLooks(a, root.value, 0, Budget(a));
      LooksConcat([Check], WalkCourse(a, root.value, 0, Budget(a)).events);
    }
  }

  /** EachTile: the course of the visit, up to the first look or call that fails; where none does and the
      course ends well, its calls are all the visits, and those are the tiles of the archive. */
  method EachTile(a: Archive, fails: seq<Event> -> bool) returns (ok: bool, events: seq<Event>)
    ensures Visits(WholeCourse(a).events, events, fails)
    ensures ok <==> WholeCourse(a).left.Some? && Passed(events, fails)
    ensures ok ==> EveryVisit(a) == Some(Calls(events)) && VisitsAll(a, Calls(events))
  {
    hide WalkCourse, ReadDirectory, EveryVisit, VisitsAll, Passed, Stopped, Calls;
    WholeCourseVisits(a);
    NothingSeen(fails);
    var visiting := new Visiting(a, Budget(a), fails);
    var current := visiting.Try(Check);
    PassedNotStopped(visiting.events, fails);
    assert [] + [Check] == [Check];
    if !current {
      return false, visiting.events;
    }
    var root := ReadDirectory(a, a.header.root, MAX_ROOT_BYTES);
    if root.None? {
      return false, visiting.events;
    }
    ok := visiting.Directory(root.value, 0);
    events := visiting.events;
    PassedNotStopped(events, fails);
    if ok && a.header.addressed != 0 && visiting.remaining != 0 {
      ok := false;
    }
  }
}
