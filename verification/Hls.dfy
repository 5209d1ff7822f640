/** The rolling segment window of internal/subscriber/hls.go over a directory, a map from file name
    to bytes, with every file operation succeeding. index.m3u8 is kept beside the map as the list of
    names last written to it. */
module Hls {
  import opened Packets
  import opened Flv

  // ---- segment names ---------------------------------------------------------------------

  function Digit(d: nat): char requires d < 10 { '0' + d as char }

  function Decimal(n: nat): (s: string)
    ensures s != []
  {
    if n < 10 then [Digit(n)] else Decimal(n / 10) + [Digit(n % 10)]
  }

  function FileName(n: nat): string { "seg_" + Decimal(n) + ".flv" }

  const INDEX := "index.m3u8"

  ghost predicate IsSegmentName(text: string) { exists n: nat :: text == FileName(n) }

  /** A file of the stream's directory: `Seg(n)` is the file named seg_n.flv, `Other` any file that is
      neither a segment nor the playlist. */
  datatype File = Seg(n: nat) | Other(text: string)

  type Name = f: File | f.Other? ==> !IsSegmentName(f.text) && f.text != INDEX witness Seg(0)

  type Dir = map<Name, seq<byte>>

  function Text(f: File): string { match f case Seg(n) => FileName(n) case Other(text) => text }

  lemma {:induction false} DecimalInjective(m: nat, n: nat)
    requires Decimal(m) == Decimal(n)
    ensures m == n
  {
    var a, b := Decimal(m), Decimal(n);
    assert a[|a| - 1] == b[|b| - 1] && a[..|a| - 1] == b[..|b| - 1];
    if m >= 10 && n >= 10 { DecimalInjective(m / 10, n / 10); }
  }

  /** Different indices give different file names, so segments never overwrite each other. */
  lemma FileNameInjective(m: nat, n: nat)
    requires FileName(m) == FileName(n)
    ensures m == n
  {
    var a, b := FileName(m), FileName(n);
    assert Decimal(m) == a[4..|a| - 4] == b[4..|b| - 4] == Decimal(n);
    DecimalInjective(m, n);
  }

  /** A name stands for one file, and no name is the playlist's. */
  lemma NamesAreFiles(a: Name, b: Name)
    ensures Text(a) == Text(b) <==> a == b
    ensures Text(a) != INDEX
  {
    if a.Seg? && b.Seg? && Text(a) == Text(b) { FileNameInjective(a.n, b.n); }
    if a.Seg? { assert FileName(a.n)[0] == 's' && INDEX[0] == 'i'; }
  }

  function Names(lo: nat, hi: nat): seq<Name>
    requires lo <= hi
  {
    seq(hi - lo, i requires 0 <= i < hi - lo => Seg(lo + i))
  }

  // ---- the run loop ----------------------------------------------------------------------

  /** What the select of `run` can receive. */
  datatype Event = Packet(p: Content) | Tick | Done

  /** `segs`: finished segments still listed; `playlist`: the names last written to index.m3u8. */
  datatype Disk = Disk(files: Dir, segs: seq<Name>, segIdx: nat, playlist: seq<Name>, closed: bool)

  function OpenSegment(d: Disk): Disk { d.(files := d.files[Seg(d.segIdx) := HEADER]) }

  function OnPacket(d: Disk, p: Content): Disk {
    var name := Seg(d.segIdx);
    if name in d.files then d.(files := d.files[name := d.files[name] + EncodeTag(p)]) else d
  }

  /** The segment leaves the window before the next one is opened and the playlist rewritten. */
  function OnTick(d: Disk, maxSegments: int): Disk {
    var segs := d.segs + [Seg(d.segIdx)];
    var full := |segs| > maxSegments;
    var rolled := if full then d.(files := d.files - {segs[0]}, segs := segs[1..]) else d.(segs := segs);
    var next := OpenSegment(rolled.(segIdx := d.segIdx + 1));
    next.(playlist := next.segs)
  }

  function OnDone(d: Disk): Disk {
    var segs := d.segs + [Seg(d.segIdx)];
    d.(segs := segs, playlist := segs, closed := true)
  }

  function OnEvent(d: Disk, ev: Event, maxSegments: int): Disk {
    match ev
    case Packet(p) => OnPacket(d, p)
    case Tick => OnTick(d, maxSegments)
    case Done => OnDone(d)
  }

  function Start(base: Dir): Disk { OpenSegment(Disk(base, [], 0, [], false)) }

  /** The directory after the events, none of which but the last may be Done. */
  function After(base: Dir, evs: seq<Event>, maxSegments: int): Disk {
    if evs == [] then Start(base) else OnEvent(After(base, evs[..|evs| - 1], maxSegments), evs[|evs| - 1], maxSegments)
  }

  predicate OneRun(evs: seq<Event>) { forall i | 0 <= i < |evs| - 1 :: !evs[i].Done? }

  // ---- what the events amount to ---------------------------------------------------------

  function Dequeued(evs: seq<Event>): seq<Content> {
    if evs == [] then []
    else Dequeued(evs[..|evs| - 1]) + (if evs[|evs| - 1].Packet? then [evs[|evs| - 1].p] else [])
  }

  /** The packets between successive ticks. */
  function Parts(evs: seq<Event>): (r: seq<seq<Content>>)
    ensures r != []
  {
    if evs == [] then [[]]
    else
      var r := Parts(evs[..|evs| - 1]);
      PartsNext(r, evs[|evs| - 1])
  }

  function PartsNext(parts: seq<seq<Content>>, ev: Event): (r: seq<seq<Content>>)
    requires parts != []
    ensures r != []
  {
    match ev
    case Packet(p) => parts[|parts| - 1 := parts[|parts| - 1] + [p]]
    case Tick => parts + [[]]
    case Done => parts
  }

  function Flatten(xs: seq<seq<Content>>): seq<Content> {
    if xs == [] then [] else Flatten(xs[..|xs| - 1]) + xs[|xs| - 1]
  }

  function Keep(maxSegments: int): nat { if maxSegments < 0 then 0 else maxSegments }

  /** The oldest segment of the window when segment `segIdx` is open. */
  function Oldest(segIdx: nat, maxSegments: int): (lo: nat)
    ensures lo <= segIdx
  {
    if segIdx > Keep(maxSegments) then segIdx - Keep(maxSegments) else 0
  }

  // ---- the window invariant --------------------------------------------------------------

  /** The names of segments lo up to, but not including, hi. */
  ghost function Span(lo: nat, hi: nat): set<Name> { set i | lo <= i < hi :: Seg(i) }

  /** On disk are exactly the segments lo..hi-1, each with its packets, and the other old files. */
  ghost predicate Window(files: Dir, base: Dir, lo: nat, hi: nat, parts: seq<seq<Content>>) {
    && |parts| == hi
    && files.Keys == (base.Keys - Span(0, hi)) + Span(lo, hi)
    && (forall i | lo <= i < hi :: Seg(i) in files && files[Seg(i)] == EncodeFile(parts[i]))
    && (forall name <- base.Keys - Span(0, hi) :: files[name] == base[name])
  }

  ghost predicate DiskOk(d: Disk, base: Dir, parts: seq<seq<Content>>, maxSegments: int) {
    var lo := Oldest(d.segIdx, maxSegments);
    && Window(d.files, base, lo, d.segIdx + 1, parts)
    && d.segs == Names(lo, if d.closed then d.segIdx + 1 else d.segIdx)
    && d.playlist == d.segs
  }

  lemma EncodeFileSnoc(ps: seq<Content>, p: Content)
    ensures EncodeFile(ps + [p]) == EncodeFile(ps) + EncodeTag(p)
  {
    EncodeSnoc(ps, p);
    Assoc(HEADER, EncodeTags(ps), EncodeTag(p));
  }

  /** Appending to the open segment. */
  lemma AppendOk(files: Dir, base: Dir, lo: nat, hi: nat, parts: seq<seq<Content>>, last: seq<Content>)
    requires Window(files, base, lo, hi, parts) && lo < hi
    ensures Window(files[Seg(hi - 1) := EncodeFile(last)], base, lo, hi, parts[hi - 1 := last])
  {
  }

  /** Removing the oldest segment. */
  lemma RemoveOk(files: Dir, base: Dir, lo: nat, hi: nat, parts: seq<seq<Content>>)
    requires Window(files, base, lo, hi, parts) && lo < hi
    ensures Window(files - {Seg(lo)}, base, lo + 1, hi, parts)
  {
  }

  /** Creating the next segment. */
  lemma OpenOk(files: Dir, base: Dir, lo: nat, hi: nat, parts: seq<seq<Content>>)
    requires Window(files, base, lo, hi, parts) && lo <= hi
    ensures Window(files[Seg(hi) := HEADER], base, lo, hi + 1, parts + [[]])
  {
  }

  lemma PacketAppends(d: Disk, last: seq<Content>, p: Content)
    requires Seg(d.segIdx) in d.files && d.files[Seg(d.segIdx)] == EncodeFile(last)
    ensures OnPacket(d, p) == d.(files := d.files[Seg(d.segIdx) := EncodeFile(last + [p])])
  {
    EncodeFileSnoc(last, p);
  }

  lemma PacketWindow(d: Disk, base: Dir, parts: seq<seq<Content>>, lo: nat, p: Content)
    requires Window(d.files, base, lo, d.segIdx + 1, parts) && lo <= d.segIdx
    ensures Window(OnPacket(d, p).files, base, lo, d.segIdx + 1, parts[d.segIdx := parts[d.segIdx] + [p]])
    ensures OnPacket(d, p) == d.(files := OnPacket(d, p).files)
  {
    PacketAppends(d, parts[d.segIdx], p);
    AppendOk(d.files, base, lo, d.segIdx + 1, parts, parts[d.segIdx] + [p]);
  }

  lemma PacketOk(d: Disk, base: Dir, parts: seq<seq<Content>>, maxSegments: int, p: Content)
    requires DiskOk(d, base, parts, maxSegments)
    ensures DiskOk(OnPacket(d, p), base, parts[d.segIdx := parts[d.segIdx] + [p]], maxSegments)
  {
    PacketWindow(d, base, parts, Oldest(d.segIdx, maxSegments), p);
  }

  lemma DoneOk(d: Disk, base: Dir, parts: seq<seq<Content>>, maxSegments: int)
    requires DiskOk(d, base, parts, maxSegments) && !d.closed
    ensures DiskOk(OnDone(d), base, parts, maxSegments)
  {
  }

  lemma RollFiles(files: Dir, base: Dir, lo: nat, hi: nat, parts: seq<seq<Content>>)
    requires Window(files, base, lo, hi, parts) && lo < hi
    ensures Window((files - {Seg(lo)})[Seg(hi) := HEADER], base, lo + 1, hi + 1, parts + [[]])
  {
    RemoveOk(files, base, lo, hi, parts);
    OpenOk(files - {Seg(lo)}, base, lo + 1, hi, parts);
  }

  lemma TickRolls(d: Disk, lo: nat, maxSegments: int)
    requires lo <= d.segIdx && d.segs == Names(lo, d.segIdx) && d.segIdx + 1 - lo > maxSegments && !d.closed
    ensures var names := Names(lo + 1, d.segIdx + 1);
            OnTick(d, maxSegments) ==
              Disk((d.files - {Seg(lo)})[Seg(d.segIdx + 1) := HEADER], names, d.segIdx + 1, names, false)
  {
    NamesRoll(lo, d.segIdx);
  }

  lemma NamesRoll(lo: nat, hi: nat)
    requires lo <= hi
    ensures var segs := Names(lo, hi) + [Seg(hi)];
            segs == Names(lo, hi + 1) && segs[0] == Seg(lo) && segs[1..] == Names(lo + 1, hi + 1)
  {
  }

  lemma OldestMoves(segIdx: nat, maxSegments: int)
    requires segIdx + 1 - Oldest(segIdx, maxSegments) > maxSegments
    ensures Oldest(segIdx + 1, maxSegments) == Oldest(segIdx, maxSegments) + 1
  {
  }

  lemma WindowOk(files: Dir, names: seq<Name>, lo: nat, hi: nat, base: Dir, parts: seq<seq<Content>>, maxSegments: int)
    requires lo == Oldest(hi, maxSegments) && Window(files, base, lo, hi + 1, parts) && names == Names(lo, hi)
    ensures DiskOk(Disk(files, names, hi, names, false), base, parts, maxSegments)
  {
  }

  lemma RolledOk(files: Dir, base: Dir, parts: seq<seq<Content>>, maxSegments: int, lo: nat, hi: nat)
    requires hi > 0 && lo == Oldest(hi - 1, maxSegments) && Window(files, base, lo, hi, parts) && hi - lo > maxSegments
    ensures DiskOk(Disk((files - {Seg(lo)})[Seg(hi) := HEADER], Names(lo + 1, hi), hi, Names(lo + 1, hi), false),
                   base, parts + [[]], maxSegments)
  {
    OldestMoves(hi - 1, maxSegments);
    RollFiles(files, base, lo, hi, parts);
    WindowOk((files - {Seg(lo)})[Seg(hi) := HEADER], Names(lo + 1, hi), lo + 1, hi, base, parts + [[]], maxSegments);
  }

  lemma TickExtends(d: Disk, base: Dir, parts: seq<seq<Content>>, maxSegments: int)
    requires DiskOk(d, base, parts, maxSegments) && !d.closed
    requires d.segIdx + 1 - Oldest(d.segIdx, maxSegments) <= maxSegments
    ensures DiskOk(OnTick(d, maxSegments), base, parts + [[]], maxSegments)
  {
    var lo, hi := Oldest(d.segIdx, maxSegments), d.segIdx + 1;
    assert d.segs + [Seg(d.segIdx)] == Names(lo, hi);
    OpenOk(d.files, base, lo, hi, parts);
  }

  lemma TickRollsOk(d: Disk, base: Dir, parts: seq<seq<Content>>, maxSegments: int, lo: nat)
    requires lo == Oldest(d.segIdx, maxSegments) && Window(d.files, base, lo, d.segIdx + 1, parts)
    requires d.segs == Names(lo, d.segIdx) && !d.closed && d.segIdx + 1 - lo > maxSegments
    ensures DiskOk(OnTick(d, maxSegments), base, parts + [[]], maxSegments)
  {
    TickRolls(d, lo, maxSegments);
    RolledOk(d.files, base, parts, maxSegments, lo, d.segIdx + 1);
  }

  lemma TickOk(d: Disk, base: Dir, parts: seq<seq<Content>>, maxSegments: int)
    requires DiskOk(d, base, parts, maxSegments) && !d.closed
    ensures DiskOk(OnTick(d, maxSegments), base, parts + [[]], maxSegments)
  {
    var lo := Oldest(d.segIdx, maxSegments);
    if d.segIdx + 1 - lo > maxSegments {
      TickRollsOk(d, base, parts, maxSegments, lo);
    } else {
      TickExtends(d, base, parts, maxSegments);
    }
  }

  lemma StartOk(base: Dir, maxSegments: int)
    ensures DiskOk(Start(base), base, [[]], maxSegments)
  {
  }

  lemma EventOk(d: Disk, base: Dir, parts: seq<seq<Content>>, maxSegments: int, ev: Event)
    requires DiskOk(d, base, parts, maxSegments) && !d.closed && parts != []
    ensures DiskOk(OnEvent(d, ev, maxSegments), base, PartsNext(parts, ev), maxSegments)
    ensures OnEvent(d, ev, maxSegments).closed <==> ev.Done?
  {
    if ev.Packet? {
      PacketOk(d, base, parts, maxSegments, ev.p);
    } else if ev.Tick? {
      TickOk(d, base, parts, maxSegments);
    } else {
      DoneOk(d, base, parts, maxSegments);
    }
  }

  /** Every run, from any directory: the listed segments are consecutive and end at the current
      index, and the directory holds exactly the window and the open segment beside what was there. */
  lemma {:induction false} RunKeepsWindow(base: Dir, evs: seq<Event>, maxSegments: int)
    requires OneRun(evs)
    ensures DiskOk(After(base, evs, maxSegments), base, Parts(evs), maxSegments)
    ensures After(base, evs, maxSegments).closed <==> evs != [] && evs[|evs| - 1].Done?
  {
    if evs == [] {
      StartOk(base, maxSegments);
    } else {
      var init, ev := evs[..|evs| - 1], evs[|evs| - 1];
      RunKeepsWindow(base, init, maxSegments);
      assert init == [] || !init[|init| - 1].Done?;
      EventOk(After(base, init, maxSegments), base, Parts(init), maxSegments, ev);
    }
  }

  /** How many segments have been finished. */
  function Ticks(evs: seq<Event>): nat {
    if evs == [] then 0 else Ticks(evs[..|evs| - 1]) + if evs[|evs| - 1].Tick? then 1 else 0
  }

  lemma {:induction false} TicksCounted(base: Dir, evs: seq<Event>, maxSegments: int)
    ensures After(base, evs, maxSegments).segIdx == Ticks(evs)
  {
    if evs != [] { TicksCounted(base, evs[..|evs| - 1], maxSegments); }
  }

  /** How many finished segments are kept: all while they are at most maxSegments, then the newest
      maxSegments; none when that is negative. */
  function Listed(ticks: nat, maxSegments: int): nat {
    if maxSegments <= 0 then 0 else if ticks <= maxSegments then ticks else maxSegments
  }

  lemma NothingElse(files: Dir, lo: nat, hi: nat, parts: seq<seq<Content>>)
    requires Window(files, map[], lo, hi, parts)
    ensures forall name :: name in files <==> name.Seg? && lo <= name.n < hi
  {
    assert files.Keys == Span(lo, hi);
  }

  /** After any events from an empty directory, `t` of them ticks, the files are exactly the newest finished
      segments, at most maxSegments of them, and the open one. */
  lemma FilesAreTheWindow(evs: seq<Event>, maxSegments: int)
    requires OneRun(evs)
    ensures var t := Ticks(evs);
            forall name :: name in After(map[], evs, maxSegments).files <==>
              name.Seg? && t - Listed(t, maxSegments) <= name.n <= t
  {
    RunKeepsWindow(map[], evs, maxSegments);
    TicksCounted(map[], evs, maxSegments);
    var d := After(map[], evs, maxSegments);
    NothingElse(d.files, Oldest(d.segIdx, maxSegments), d.segIdx + 1, Parts(evs));
  }

  /** The playlist lists exactly those finished segments, oldest first, and on close the last one too. */
  lemma PlaylistExactly(base: Dir, evs: seq<Event>, maxSegments: int)
    requires OneRun(evs)
    ensures var t, d := Ticks(evs), After(base, evs, maxSegments);
            var listed := Listed(t, maxSegments) + if evs != [] && evs[|evs| - 1].Done? then 1 else 0;
            && |d.playlist| == listed
            && forall k | 0 <= k < listed :: d.playlist[k] == Seg(t - Listed(t, maxSegments) + k)
  {
    RunKeepsWindow(base, evs, maxSegments);
    TicksCounted(base, evs, maxSegments);
  }

  /** At most maxSegments segments are listed (one more when written on close), in order, without
      gaps and ending at the latest finished one, and every one of them is on disk. */
  ghost predicate Servable(d: Disk, maxSegments: int) {
    var hi := if d.closed then d.segIdx + 1 else d.segIdx;
    && |d.playlist| <= Keep(maxSegments) + (if d.closed then 1 else 0)
    && |d.playlist| <= hi && d.playlist == Names(hi - |d.playlist|, hi)
    && (forall name <- d.playlist :: name in d.files)
  }

  lemma Served(d: Disk, base: Dir, parts: seq<seq<Content>>, maxSegments: int)
    requires DiskOk(d, base, parts, maxSegments)
    ensures Servable(d, maxSegments)
  {
    forall name <- d.playlist ensures name in d.files {
      assert name.Seg? && Oldest(d.segIdx, maxSegments) <= name.n < d.segIdx + 1;
    }
  }

  lemma PlaylistIsServable(base: Dir, evs: seq<Event>, maxSegments: int)
    requires OneRun(evs)
    ensures Servable(After(base, evs, maxSegments), maxSegments)
  {
    RunKeepsWindow(base, evs, maxSegments);
    Served(After(base, evs, maxSegments), base, Parts(evs), maxSegments);
  }

  lemma FlattenLast(xs: seq<seq<Content>>, p: Content)
    requires xs != []
    ensures Flatten(xs[|xs| - 1 := xs[|xs| - 1] + [p]]) == Flatten(xs) + [p]
  {
  }

  lemma {:induction false} PartsFlatten(evs: seq<Event>)
    ensures Flatten(Parts(evs)) == Dequeued(evs)
  {
    if evs == [] {
      var one: seq<seq<Content>> := [[]];
      assert one[..0] == [];
    } else {
      var init, ev := evs[..|evs| - 1], evs[|evs| - 1];
      PartsFlatten(init);
      match ev {
        case Packet(p) => FlattenLast(Parts(init), p);
        case Tick => assert (Parts(init) + [[]])[..|Parts(init)|] == Parts(init);
        case Done =>
      }
    }
  }

  /** Cut at the ticks, the dequeued packets are the segments: nothing is lost, repeated or
      reordered between them, and each segment still on disk reads back as its share, then a clean
      end. Removed segments are the shares before the window. */
  lemma SegmentsHoldTheStream(base: Dir, evs: seq<Event>, maxSegments: int, i: nat)
    requires OneRun(evs) && (forall p <- Dequeued(evs) :: Fits(p))
    requires var d := After(base, evs, maxSegments); Oldest(d.segIdx, maxSegments) <= i <= d.segIdx
    ensures var d, parts := After(base, evs, maxSegments), Parts(evs);
            && |parts| == d.segIdx + 1 && Flatten(parts) == Dequeued(evs)
            && Seg(i) in d.files
            && ReadHeader(d.files[Seg(i)]) == Ok((), EncodeTags(parts[i]))
            && ReadTags(EncodeTags(parts[i])) == (Normals(parts[i]), EOF)
  {
    RunKeepsWindow(base, evs, maxSegments);
    PartsFlatten(evs);
    PartWithin(Parts(evs), i);
    FileRoundTrip(Parts(evs)[i]);
  }

  lemma {:induction false} PartWithin(xs: seq<seq<Content>>, i: nat)
    requires i < |xs|
    ensures forall p <- xs[i] :: p in Flatten(xs)
  {
    if i < |xs| - 1 { PartWithin(xs[..|xs| - 1], i); }
  }

  // ---- the subscriber itself -------------------------------------------------------------

  /** HLSSubscriber's run goroutine; `events` stands for what its select receives. */
  class HlsSubscriber {
    const maxSegments: int
    var files: Dir
    var segs: seq<Name>
    var segIdx: nat
    var playlist: seq<Name>
    var closed: bool

    ghost function State(): Disk reads this { Disk(files, segs, segIdx, playlist, closed) }

    constructor (base: Dir, maxSegments: int)
      ensures this.maxSegments == maxSegments && State() == Start(base)
    {
      this.maxSegments := maxSegments;
      files := base[Seg(0) := HEADER];
      segs, segIdx, playlist, closed := [], 0, [], false;
    }

    method WriteTag(p: Content)
      modifies this
      ensures State() == OnPacket(old(State()), p)
    {
      if Seg(segIdx) in files {
        files := files[Seg(segIdx) := files[Seg(segIdx)] + EncodeTag(p)];
      }
    }

    method Rotate()
      modifies this
      ensures State() == OnTick(old(State()), maxSegments)
    {
      segs := segs + [Seg(segIdx)];
      if |segs| > maxSegments {
        var oldest := segs[0];
        files := files - {oldest};
        segs := segs[1..];
      }
      segIdx := segIdx + 1;
      files := files[Seg(segIdx) := HEADER];
      playlist := segs;
    }

    method Finish()
      modifies this
      ensures State() == OnDone(old(State()))
    {
      segs := segs + [Seg(segIdx)];
      playlist := segs;
      closed := true;
    }

    /** The loop of `run`, from a freshly opened first segment, until Done or the events stop. */
    method Run(base: Dir, events: seq<Event>) returns (n: nat)
      requires State() == Start(base)
      modifies this
      ensures n <= |events| && OneRun(events[..n]) && State() == After(base, events[..n], maxSegments)
      ensures n < |events| ==> closed
      ensures DiskOk(State(), base, Parts(events[..n]), maxSegments)
    {
      n := 0;
      while n < |events| && !closed
        invariant n <= |events| && (closed ==> n > 0)
        invariant forall i | 0 <= i < n :: events[i].Done? ==> i == n - 1 && closed
        invariant State() == After(base, events[..n], maxSegments)
      {
        var ev := events[n];
        assert events[..n + 1][..n] == events[..n];
        match ev {
          case Packet(p) => WriteTag(p);
          case Tick => Rotate();
          case Done => Finish();
        }
        n := n + 1;
      }
      RunKeepsWindow(base, events[..n], maxSegments);
    }
  }
}
