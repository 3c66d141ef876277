/**
 * The writer of a measurement file (mf4/writer.go): records are buffered and flushed in data blocks,
 * events and groups are appended at once, and every chain is linked by patching the block before.
 */
module Mf4Writer {
  import opened Wrappers
  import opened Bytes
  import opened Frames
  import opened CaptureChunk
  import opened Mf4Blocks
  import opened Mf4Channels
  import opened Mf4Layout
  import opened Mf4Reader
  import opened Mf4Records

  const BUFFER_SIZE: nat := 65536

  // The IEEE double 1e-9.
  const NANOSECONDS: nat := 0x3e11_2e0b_e826_d695

  const MAX_TIME: nat := 0x8000_0000_0000_0000

  datatype Error = Closed | InvalidRecord | TimeOutOfRange | BeforeStart | TimeRegresses

  datatype Group = Group(address: nat, id: nat, cycles: nat, lastTime: nat)

  // A record accepted for the group with the given key.
  datatype Written = Written(key: nat, bytes: seq<byte>)

  function BytesOf(records: seq<Written>): (pieces: seq<seq<byte>>)
    ensures |pieces| == |records|
  {
    seq(|records|, i requires 0 <= i < |records| => records[i].bytes)
  }

  function CountOf(records: seq<Written>, key: nat): nat {
    if records == [] then 0
    else CountOf(records[..|records| - 1], key) + if records[|records| - 1].key == key then 1 else 0
  }

  function KeyOf(event: FrameEvent): nat {
    2 * event.bus + if event.frame.flags.remote then 1 else 0
  }

  // Whether timeOffset accepts a time.
  predicate InTime(start: Option<nat>, timestamp: int) {
    0 <= timestamp < MAX_TIME && (start.Some? ==> start.value <= timestamp)
  }

  // Whether the master channel of a group would run backwards.
  predicate Regresses(groups: map<nat, Group>, key: nat, time: nat) {
    key in groups && groups[key].cycles != 0 && time < groups[key].lastTime
  }

  function OffsetFrom(start: Option<nat>, timestamp: int): nat
    requires InTime(start, timestamp)
  {
    if start.Some? then timestamp - start.value else 0
  }

  /** The group of a key is where its identifier says, and counts its records. */
  ghost predicate GroupMatches(group: Group, key: nat, keys: seq<nat>, blocks: seq<Block>, list: seq<nat>, records: seq<Written>) {
    && 1 <= group.id <= |keys| && group.id <= |list| && keys[group.id - 1] == key
    && list[group.id - 1] < |blocks| && group.address == blocks[list[group.id - 1]].address
    && group.cycles == CountOf(records, key)
  }

  ghost predicate Inside(list: seq<nat>, n: nat) {
    forall i :: 0 <= i < |list| ==> list[i] < n
  }

  ghost predicate AllMatch(groups: map<nat, Group>, keys: seq<nat>, blocks: seq<Block>, list: seq<nat>, records: seq<Written>) {
    forall key :: key in groups ==> GroupMatches(groups[key], key, keys, blocks, list, records)
  }

  ghost predicate RecordsKnown(groups: map<nat, Group>, records: seq<Written>) {
    forall i :: 0 <= i < |records| ==> records[i].key in groups
  }

  ghost predicate Numbered(groups: map<nat, Group>, keys: seq<nat>) {
    forall i :: 0 <= i < |keys| ==> keys[i] in groups && groups[keys[i]].id == i + 1
  }

  /** The channel group of each key, numbered in the order the groups were added. */
  ghost predicate GroupsMatch(groups: map<nat, Group>, keys: seq<nat>, blocks: seq<Block>, list: seq<nat>, records: seq<Written>) {
    && |groups| == |keys| == |list| && Inside(list, |blocks|)
    && RecordsKnown(groups, records) && Numbered(groups, keys) && AllMatch(groups, keys, blocks, list, records)
    && AllDescribed(blocks, list, keys)
  }

  function HeaderData(l: Layout): seq<byte> {
    if l.blocks == [] then [] else l.blocks[0].data
  }

  predicate MarkersInTime(markers: seq<Marker>) {
    forall i :: 0 <= i < |markers| ==> markers[i].offset < MAX_TIME
  }

  /** The header holds the start time once it is known. */
  predicate StartRecorded(l: Layout, start: Option<nat>) {
    start.Some? ==> start.value < MAX_TIME && |HeaderData(l)| == 32 && HeaderData(l)[0..8] == Word(start.value)
  }

  // "UnFinMF ", "4.10    ", "gocan   ", the version number and the flag for unfinished counters.
  function Identification(): (id: seq<byte>)
    ensures |id| == 64
  {
    Text("UnFinMF 4.10    gocan   ") + Zeros(4) + [154, 1] + Zeros(30) + [1, 0] + Zeros(2)
  }

  lemma EmptyIsLaid(file: seq<byte>)
    ensures Laid(file, [])
  {
  }

  lemma NothingWritten(blocks: seq<Block>)
    ensures Join(BytesOf([])) == Join([]) + [] && Total([]) == 0
    ensures GroupsMatch(map[], [], blocks, [], [])
  {
    assert BytesOf([]) == [];
  }

  // The header block of a file that has no events yet.
  ghost predicate HeaderFirst(blocks: seq<Block>) {
    && blocks != [] && blocks[0].kind == HD && blocks[0].address == 64 && |blocks[0].links| == 6 && |blocks[0].data| == 32
    && blocks[0].links[4] == 0
  }

  lemma NewLayoutIsValid(l: Layout, t: Tails)
    requires 0 < l.dg < |l.blocks| && l == Layout(l.blocks, l.dg, [], [], [], [], [], [])
    requires l.blocks[0].kind == HD && l.blocks[0].address == 64 && |l.blocks[0].links| == 6 && |l.blocks[0].data| == 32
    requires l.blocks[0].links[0] == l.blocks[l.dg].address && l.blocks[0].links[4] == 0
    requires l.blocks[l.dg].kind == DG && l.blocks[l.dg].links == [0, 0, 0, 0]
    requires t == Tails(l.blocks[l.dg].address + 40, 64 + 56, l.blocks[l.dg].address + 32)
    ensures ValidLayout(l, NANOSECONDS) && TailsOf(l, t)
  {
    KindsDiffer();
  }

  class Writer {
    var file: seq<byte>
    var start: Option<nat>
    var closed: bool
    var buffer: seq<byte>
    var groups: map<nat, Group>
    var groupLink: nat
    var dataLink: nat
    var dataOffset: nat
    var eventLink: nat
    // float64(offset) / 1e9, as bits; paths and labels are the UTF-8 texts that name the buses.
    const seconds: nat -> nat
    const paths: nat -> seq<byte>
    const labels: nat -> Option<seq<byte>>

    ghost var layout: Layout
    ghost var records: seq<Written>
    ghost var keys: seq<nat>

    ghost predicate Placed()
      reads `file, `groupLink, `dataLink, `eventLink, `layout
    {
      && 64 <= |file| && Laid(file, layout.blocks) && ValidLayout(layout, NANOSECONDS)
      && TailsOf(layout, Tails(dataLink, eventLink, groupLink))
    }

    ghost predicate Accounted()
      reads `file, `start, `buffer, `groups, `groupLink, `dataLink, `dataOffset, `eventLink, `layout, `records, `keys
    {
      && Join(BytesOf(records)) == Join(layout.payloads) + buffer
      && dataOffset == Total(layout.payloads) && |buffer| <= BUFFER_SIZE
      && GroupsMatch(groups, keys, layout.blocks, layout.groupList, records)
      && StartRecorded(layout, start) && MarkersInTime(layout.markers)
    }

    ghost predicate Valid()
      reads `file, `start, `buffer, `groups, `groupLink, `dataLink, `dataOffset, `eventLink, `layout, `records, `keys
    {
      Placed() && Accounted()
    }

    /** NewWriter without attachments; the comments are XML texts. */
    constructor (created: nat, headerComment: Option<seq<byte>>, historyComment: seq<byte>,
                 seconds: nat -> nat, paths: nat -> seq<byte>, labels: nat -> Option<seq<byte>>)
      ensures Valid() && !closed && start == None && records == [] && layout.markers == []
      ensures this.seconds == seconds && this.paths == paths && this.labels == labels
    {
      file := Identification();
      this.seconds, this.paths, this.labels := seconds, paths, labels;
      start, closed, buffer, groups := None, false, [], map[];
      groupLink, dataLink, dataOffset, eventLink := 0, 0, 0, 64 + 56;
      layout := Layout([], 0, [], [], [], [], [], []);
      records, keys := [], [];
      new;
      hide Valid;
      hide Identification;
      hide Laid;
      EmptyIsLaid(file);
      AppendFront(created, headerComment, historyComment);
    }

    method AppendFront(created: nat, headerComment: Option<seq<byte>>, historyComment: seq<byte>)
      requires |file| == 64 && Laid(file, []) && layout == Layout([], 0, [], [], [], [], [], []) && eventLink == 64 + 56
      requires start == None && buffer == [] && groups == map[] && dataOffset == 0 && records == [] && keys == []
      modifies this`file, this`layout, this`groupLink, this`dataLink
      ensures Valid() && layout.markers == []
    {
      hide Laid;
      hide ValidLayout;
      hide TailsOf;
      hide GroupsMatch;
      hide Join;
      hide Total;
      hide BytesOf;
      AppendHeader(created, headerComment);
      AppendHistory(created, historyComment);
      AppendDataGroup();
      NothingWritten(layout.blocks);
    }

    method AppendHeader(created: nat, comment: Option<seq<byte>>)
      requires |file| == 64 && layout.blocks == [] && Laid(file, [])
      modifies this`file, this`layout
      ensures 64 <= |file| && Laid(file, layout.blocks) && layout == old(layout).(blocks := layout.blocks) && HeaderFirst(layout.blocks)
    {
      hide Laid;
      hide Word;
      hide TextData;
      var hd := Append(HD, [0, 0, 0, 0, 0, 0], Word(created) + Zeros(24));
      assert layout.blocks == [Block(64, HD, [0, 0, 0, 0, 0, 0], Word(created) + Zeros(24))];
      if comment.Some? {
        var text := AppendHeaderLink(MD, [], TextData(comment.value), 5);
      }
    }

    // A block linked from the header.
    method AppendHeaderLink(kind: seq<byte>, links: seq<nat>, data: seq<byte>, i: nat) returns (address: nat)
      requires 64 <= |file| && Laid(file, layout.blocks) && HeaderFirst(layout.blocks) && |kind| == 4 && i < 6 && i != 4
      modifies this`file, this`layout
      ensures 64 <= |file| && Laid(file, layout.blocks) && layout == old(layout).(blocks := layout.blocks) && HeaderFirst(layout.blocks)
      ensures |layout.blocks| == |old(layout).blocks| + 1 && layout.blocks[|old(layout).blocks|] == Block(address, kind, links, data)
      ensures layout.blocks[0].links[i] == address
    {
      hide Laid;
      ghost var before := layout.blocks;
      address := Append(kind, links, data);
      assert layout.blocks[0] == before[0];
      Patch64(64 + 24 + 8 * i, address, 0, i);
    }

    method AppendHistory(created: nat, comment: seq<byte>)
      requires 64 <= |file| && Laid(file, layout.blocks) && HeaderFirst(layout.blocks)
      modifies this`file, this`layout
      ensures 64 <= |file| && Laid(file, layout.blocks) && layout == old(layout).(blocks := layout.blocks) && HeaderFirst(layout.blocks)
    {
      hide Laid;
      hide Word;
      hide TextData;
      ghost var before := layout.blocks;
      var text := Append(MD, [], TextData(comment));
      assert layout.blocks[0] == before[0];
      var fh := AppendHeaderLink(FH, [0, text], Word(created) + Zeros(8), 1);
    }

    method AppendDataGroup()
      requires 64 <= |file| && Laid(file, layout.blocks) && HeaderFirst(layout.blocks) && eventLink == 64 + 56
      requires layout == Layout(layout.blocks, 0, [], [], [], [], [], [])
      modifies this`file, this`layout, this`groupLink, this`dataLink
      ensures Placed() && layout == Layout(layout.blocks, layout.dg, [], [], [], [], [], [])
    {
      hide Laid;
      var dg := AppendHeaderLink(DG, [0, 0, 0, 0], [4, 0, 0, 0, 0, 0, 0, 0], 0);
      layout := layout.(dg := |layout.blocks| - 1);
      groupLink := dg + 32;
      dataLink := dg + 40;
      NewLayoutIsValid(layout, Tails(dataLink, eventLink, groupLink));
    }

    // ---- Appending and patching ----------------------------------------------------------

    method Append(kind: seq<byte>, links: seq<nat>, data: seq<byte>) returns (address: nat)
      requires 64 <= |file| && |kind| == 4 && Laid(file, layout.blocks)
      modifies this`file, this`layout
      ensures address == old(|file|) + Padding(old(|file|)) && address % 8 == 0
      ensures layout == old(layout).(blocks := old(layout).blocks + [Block(address, kind, links, data)])
      ensures Laid(file, layout.blocks) && |file| == address + 24 + 8 * |links| + |data|
    {
      hide Laid;
      hide Word;
      hide Header;
      ghost var b := Block(|file| + Padding(|file|), kind, links, data);
      AppendKeeps(file, layout.blocks, b);
      ghost var before := file;
      file := file + Zeros(Padding(|file|));
      address := |file|;
      var header := Header(Block(address, kind, links, data));
      ghost var head := header;
      for i := 0 to |links|
        invariant header == head + Words(links[..i])
      {
        assert links[..i + 1][..i] == links[..i];
        header := header + Word(links[i]);
      }
      assert links[..|links|] == links;
      file := file + header;
      file := file + data;
      assert file == before + Zeros(Padding(|before|)) + Encode(b);
      layout := layout.(blocks := layout.blocks + [b]);
    }

    // A block that no chain runs through.
    method Loose(kind: seq<byte>, links: seq<nat>, data: seq<byte>) returns (address: nat)
      requires Placed() && |kind| == 4
      modifies this`file, this`layout
      ensures Placed() && address == old(|file|) + Padding(old(|file|))
      ensures layout == old(layout).(blocks := old(layout).blocks + [Block(address, kind, links, data)])
      ensures old(|file|) <= |file|
    {
      hide Laid;
      hide ValidLayout;
      hide TailsOf;
      AppendKeepsLayout(layout, [Block(|file| + Padding(|file|), kind, links, data)], NANOSECONDS);
      AppendKeepsTails(layout, [Block(|file| + Padding(|file|), kind, links, data)], NANOSECONDS, Tails(dataLink, eventLink, groupLink));
      address := Append(kind, links, data);
    }

    method Patch64(at: nat, value: nat, ghost k: nat, ghost i: nat)
      requires Laid(file, layout.blocks) && k < |layout.blocks| && i < |layout.blocks[k].links|
      requires at == layout.blocks[k].address + 24 + 8 * i
      modifies this`file, this`layout
      ensures |file| == old(|file|) && Laid(file, layout.blocks)
      ensures layout == old(layout).(blocks := old(layout).blocks[k := Relinked(old(layout).blocks[k], i, value)])
    {
      hide Laid;
      hide Word;
      RelinkKeeps(file, layout.blocks, k, i, value);
      file := Patched(file, at, Word(value));
      layout := layout.(blocks := layout.blocks[k := Relinked(layout.blocks[k], i, value)]);
    }

    method PatchField(at: nat, value: nat, ghost k: nat, ghost field: nat)
      requires Laid(file, layout.blocks) && k < |layout.blocks| && field + 8 <= |layout.blocks[k].data|
      requires at == layout.blocks[k].address + 24 + 8 * |layout.blocks[k].links| + field
      modifies this`file, this`layout
      ensures |file| == old(|file|) && Laid(file, layout.blocks)
      ensures layout == old(layout).(blocks := old(layout).blocks[k := Rewritten(old(layout).blocks[k], field, Word(value))])
    {
      hide Laid;
      hide Word;
      RewriteKeeps(file, layout.blocks, k, field, Word(value));
      file := Patched(file, at, Word(value));
      layout := layout.(blocks := layout.blocks[k := Rewritten(layout.blocks[k], field, Word(value))]);
    }

    // Appends a block and links it from the tail of a chain.
    method AppendLinked(kind: seq<byte>, links: seq<nat>, data: seq<byte>, position: nat, ghost head: nat, ghost link: nat, ghost list: seq<nat>)
      returns (address: nat)
      requires 64 <= |file| && |kind| == 4 && Laid(file, layout.blocks)
      requires TailBlock(head, list) < |layout.blocks| && TailLink(link, list) < |layout.blocks[TailBlock(head, list)].links|
      requires position == TailPosition(layout.blocks, head, link, list)
      modifies this`file, this`layout
      ensures 64 <= |file| && Laid(file, layout.blocks)
      ensures layout == old(layout).(blocks := Extended(old(layout).blocks, Block(address, kind, links, data), head, link, list))
    {
      hide Laid;
      ghost var before := layout.blocks;
      address := Append(kind, links, data);
      ghost var t := TailBlock(head, list);
      assert layout.blocks[t] == before[t];
      Patch64(position, address, t, TailLink(link, list));
    }

    // ---- Flush ---------------------------------------------------------------------------

    method Flush()
      requires Valid()
      modifies this`file, this`layout, this`buffer, this`dataLink, this`dataOffset
      ensures Valid() && buffer == []
      ensures layout.markers == old(layout.markers) && layout.counters == old(layout.counters)
      ensures layout.groupList == old(layout.groupList)
      ensures HeaderData(layout) == HeaderData(old(layout))
    {
      hide ValidLayout;
      hide Laid;
      hide TailsOf;
      hide GroupsMatch;
      hide HeaderData;
      if |buffer| != 0 {
        FlushBuffer();
      }
    }

    method FlushBuffer()
      requires Valid() && buffer != []
      modifies this`file, this`layout, this`buffer, this`dataLink, this`dataOffset
      ensures Valid() && buffer == []
      ensures layout.markers == old(layout.markers) && layout.counters == old(layout.counters)
      ensures layout.groupList == old(layout.groupList)
      ensures HeaderData(layout) == HeaderData(old(layout))
    {
      hide Laid;
      hide ValidLayout;
      hide TailsOf;
      hide GroupsMatch;
      hide ListData;
      hide Extended;
      hide Total;
      hide Join;
      hide WithData;
      hide TailPosition;
      hide TailBlock;
      hide TailLink;
      ghost var (l, t) := (layout, Tails(dataLink, eventLink, groupLink));
      var address := Append(DT, [], buffer);
      ghost var dt := Block(address, DT, [], buffer);
      ghost var k := layout;
      ReadyForData(l, dt, t);
      var dl := AppendLinked(DL, [0, address], ListData(dataOffset), dataLink, k.dg, 2, k.dataList);
      ghost var list := Block(dl, DL, [0, address], ListData(dataOffset));
      FlushedLayout(l, dt, list, t, groups, keys, records);
      layout := WithData(k, list, buffer);
      dataLink := dl + 24;
      FlushAccounts(l.payloads, buffer);
      dataOffset := dataOffset + |buffer|;
      buffer := [];
    }

    // ---- Time ----------------------------------------------------------------------------

    /** timeOffset: the first accepted time becomes the start of the measurement. */
    method TimeOffset(timestamp: int) returns (r: Result<nat, Error>)
      requires Valid()
      modifies this`file, this`layout, this`start
      ensures Valid() && layout == old(layout).(blocks := layout.blocks)
      ensures r.Ok? <==> 0 <= timestamp < 0x8000_0000_0000_0000 && (old(start).Some? ==> old(start).value <= timestamp)
      ensures r.Ok? ==> start.Some? && r.value == timestamp - start.value == OffsetFrom(old(start), timestamp)
      ensures old(start).Some? ==> start == old(start) && layout == old(layout)
    {
      hide Valid;
      if !(0 <= timestamp < MAX_TIME) {
        return Err(TimeOutOfRange);
      }
      if start.None? {
        SetStart(timestamp);
      }
      if timestamp < start.value {
        return Err(BeforeStart);
      }
      r := Ok(timestamp - start.value);
    }

    method SetStart(timestamp: nat)
      requires Valid() && timestamp < MAX_TIME
      modifies this`file, this`layout, this`start
      ensures Valid() && layout == old(layout).(blocks := layout.blocks) && start == Some(timestamp)
    {
      hide Laid;
      hide ValidLayout;
      hide TailsOf;
      hide GroupsMatch;
      hide Word;
      hide Total;
      hide Join;
      ghost var (l, t) := (layout, Tails(dataLink, eventLink, groupLink));
      HeaderIsFirst(l);
      PatchField(64 + 24 + 6 * 8, timestamp, 0, 0);
      StartKeepsLayout(l, timestamp, NANOSECONDS, t);
      StartAccounts(l, timestamp, groups, keys, records);
      start := Some(timestamp);
    }

    // ---- Events --------------------------------------------------------------------------

    /** WriteEvent: a marker with its texts. */
    method WriteEvent(event: Event, title: seq<byte>, comment: Option<seq<byte>>) returns (r: Result<(), Error>)
      requires Valid()
      modifies this`file, this`layout, this`start, this`eventLink
      ensures Valid()
      ensures r.Ok? <==>
        && !closed && event.Valid() && 0 <= event.timestamp < 0x8000_0000_0000_0000
        && (old(start).Some? ==> old(start).value <= event.timestamp)
      ensures r.Err? ==> layout.markers == old(layout.markers)
      ensures closed || !event.Valid() ==> start == old(start)
      ensures r.Ok? ==>
        && start.Some? && 0 <= event.timestamp - start.value < MAX_TIME
        && layout.markers == old(layout.markers) + [Marker(event.timestamp - start.value, title, comment)]
    {
      hide Valid;
      if closed {
        return Err(Closed);
      }
      if !event.Valid() {
        return Err(InvalidRecord);
      }
      var offset :- TimeOffset(event.timestamp);
      AppendMarker(Marker(offset, title, comment));
      r := Ok(());
    }

    method AppendMarker(marker: Marker)
      requires Valid() && marker.offset < MAX_TIME
      modifies this`file, this`layout, this`eventLink
      ensures Valid() && layout.markers == old(layout.markers) + [marker]
    {
      hide Laid;
      hide ValidLayout;
      hide TailsOf;
      hide GroupsMatch;
      hide Total;
      hide Join;
      hide BytesOf;
      hide StartRecorded;
      hide TextData;
      hide EventData;
      hide Extended;
      hide WithEvent;
      hide TailPosition;
      hide TailBlock;
      hide TailLink;
      hide EventContent;
      ghost var l := layout;
      var name := Loose(TX, [], TextData(marker.title));
      var details := 0;
      if marker.comment.Some? {
        details := Loose(MD, [], TextData(marker.comment.value));
      }
      ghost var (k, t) := (layout, Tails(dataLink, eventLink, groupLink));
      LooseAccounts(l, k.blocks, NANOSECONDS, groups, keys, records, start);
      ReadyForEvent(k, t);
      var at := AppendLinked(EV, [0, 0, 0, name, details], EventData(marker.offset, NANOSECONDS), eventLink, 0, 4, layout.eventList);
      ghost var ev := Block(at, EV, [0, 0, 0, name, details], EventData(marker.offset, NANOSECONDS));
      MarkerIsThere(l, k, ev, marker, name, details);
      MarkedLayout(k, ev, marker, t, groups, keys, records, start);
      layout := WithEvent(k, ev, marker);
      eventLink := at + 24;
    }

    // ---- Groups --------------------------------------------------------------------------

    /** channel: its texts and its block. */
    method AppendChannel(c: Channel, next: nat, component: nat, source: nat) returns (at: nat)
      requires Placed()
      modifies this`file, this`layout
      ensures Placed() && layout == old(layout).(blocks := layout.blocks) && old(layout).blocks <= layout.blocks
      ensures |layout.blocks| > 0 && at == layout.blocks[|layout.blocks| - 1].address
      ensures IsChannel(layout.blocks, |layout.blocks| - 1, c, next, component)
    {
      hide Placed;
      hide TextData;
      hide ChannelData;
      LayoutHasHeads();
      var text := Loose(TX, [], TextData(c.name));
      var unit := 0;
      if c.master {
        unit := Loose(TX, [], TextData(Text("s")));
      }
      at := Loose(CN, [next, component, text, source, 0, 0, unit, 0], ChannelData(c));
    }

    lemma LayoutHasHeads()
      requires Placed()
      ensures |layout.blocks| >= 2
    {
    }

    /** The source of the bus, the members from the last one on, the structure and the time master. */
    method AppendChannels(bus: nat, remote: bool) returns (master: nat, source: nat, ghost d: Description)
      requires Placed()
      modifies this`file, this`layout
      ensures Placed() && layout == old(layout).(blocks := layout.blocks) && old(layout).blocks <= layout.blocks
      ensures Describes(layout.blocks, remote, d) && master == layout.blocks[d.master].address
    {
      hide Placed;
      hide TextData;
      hide Members;
      hide IsChannel;
      hide AreMembers;
      source := AppendSource(bus);
      var first;
      ghost var members;
      first, members := AppendMembers(remote, source);
      ghost var described := layout.blocks;
      var structure := AppendChannel(StructureChannel(remote), 0, first, source);
      ghost var k := |layout.blocks| - 1;
      MembersRemain(described, layout.blocks, remote, members, 0);
      ghost var structured := layout.blocks;
      master := AppendChannel(TimeChannel(), structure, 0, 0);
      MembersRemain(structured, layout.blocks, remote, members, 0);
      ChannelRemains(structured, layout.blocks, k, StructureChannel(remote), 0, first);
      d := Description(|layout.blocks| - 1, k, members);
    }

    // The source of a bus: its texts and its block.
    method AppendSource(bus: nat) returns (source: nat)
      requires Placed()
      modifies this`file, this`layout
      ensures Placed() && layout == old(layout).(blocks := layout.blocks) && old(layout).blocks <= layout.blocks
    {
      hide Placed;
      hide TextData;
      var path := Loose(TX, [], TextData(paths(bus)));
      var shown := path;
      if labels(bus).Some? {
        shown := Loose(TX, [], TextData(labels(bus).value));
      }
      source := Loose(SI, [shown, path, 0], [2, 2, 0, 0, 0, 0, 0, 0]);
    }

    // Everything a group refers to: its channels, its source and its name.
    method AppendDescription(bus: nat, remote: bool) returns (master: nat, text: nat, source: nat, ghost d: Description)
      requires Placed()
      modifies this`file, this`layout
      ensures Placed() && layout == old(layout).(blocks := layout.blocks) && old(layout).blocks <= layout.blocks
      ensures Describes(layout.blocks, remote, d) && master == layout.blocks[d.master].address
    {
      hide Placed;
      hide TextData;
      hide Describes;
      master, source, d := AppendChannels(bus, remote);
      ghost var described := layout.blocks;
      text := Loose(TX, [], TextData(Text(GroupName(remote))));
      DescriptionRemains(described, layout.blocks, remote, d);
    }

    // The members, each linked to the one appended before it.
    method AppendMembers(remote: bool, source: nat) returns (first: nat, ghost members: seq<nat>)
      requires Placed()
      modifies this`file, this`layout
      ensures Placed() && layout == old(layout).(blocks := layout.blocks) && old(layout).blocks <= layout.blocks
      ensures AreMembers(layout.blocks, remote, members, 0) && (forall i :: 0 <= i < |members| ==> members[i] < |layout.blocks|)
      ensures first == Target(layout.blocks, members, 0)
    {
      hide Placed;
      hide TextData;
      hide Members;
      hide IsChannel;
      hide AreMembers;
      ghost var l := layout;
      var n := |Members(remote)|;
      first, members := 0, [];
      NoMembers(layout.blocks, remote);
      for i := n downto 0
        invariant Placed() && layout == l.(blocks := layout.blocks) && l.blocks <= layout.blocks
        invariant AreMembers(layout.blocks, remote, members, i) && (forall k :: 0 <= k < |members| ==> members[k] < |layout.blocks|)
        invariant first == Target(layout.blocks, members, 0)
      {
        ghost var before := layout.blocks;
        first := AppendChannel(MemberChannel(remote, i), first, 0, 0);
        MembersRemain(before, layout.blocks, remote, members, i + 1);
        MemberInFront(layout.blocks, remote, members, i + 1, |layout.blocks| - 1);
        members := [|layout.blocks| - 1] + members;
      }
    }

    /** addGroup: a channel group for the data or the remote frames of a bus. */
    method AddGroup(key: nat, bus: nat, remote: bool)
      requires Valid() && key !in groups && key == 2 * bus + (if remote then 1 else 0)
      modifies this`file, this`layout, this`groups, this`keys, this`groupLink
      ensures Valid() && keys == old(keys) + [key] && layout.payloads == old(layout).payloads && layout.markers == old(layout).markers
      ensures groups.Keys == old(groups).Keys + {key} && groups[key].id == |keys| && groups[key].cycles == 0
      ensures forall other :: other in old(groups) ==> groups[other] == old(groups)[other]
    {
      hide Laid;
      hide ValidLayout;
      hide TailsOf;
      hide GroupsMatch;
      hide Total;
      hide Join;
      hide BytesOf;
      hide StartRecorded;
      hide TextData;
      hide GroupData;
      hide Extended;
      hide WithGroup;
      hide TailPosition;
      hide TailBlock;
      hide TailLink;
      hide Describes;
      hide StructureSize;
      ghost var l := layout;
      ghost var d;
      var master, text, source;
      master, text, source, d := AppendDescription(bus, remote);
      var id := |groups| + 1;
      var data := GroupData(id, 0, StructureSize(remote));
      ghost var (k, t) := (layout, Tails(dataLink, eventLink, groupLink));
      LooseAccounts(l, k.blocks, NANOSECONDS, groups, keys, records, start);
      ReadyForGroup(k, t);
      var at := AppendLinked(CG, [0, master, text, source, 0, 0], data, groupLink, k.dg, 1, k.groupList);
      ghost var cg := Block(at, CG, [0, master, text, source, 0, 0], data);
      GroupedLayout(k, cg, StructureSize(remote), t, groups, keys, records, start, key, d);
      layout := WithGroup(k, cg);
      groupLink := at + 24;
      groups := groups[key := Group(at, id, 0, 0)];
      keys := keys + [key];
    }

    // ---- Frames --------------------------------------------------------------------------

    /** WriteFrame: the record of an accepted frame, and nothing when it is refused. */
    method WriteFrame(event: FrameEvent) returns (r: Result<(), Error>)
      requires Valid()
      modifies this`file, this`layout, this`start, this`groups, this`keys, this`groupLink, this`buffer, this`dataLink, this`dataOffset, this`records
      ensures Valid() && layout.markers == old(layout.markers)
      ensures r.Ok? <==>
        && !closed && event.Valid() && 0 <= event.timestamp < 0x8000_0000_0000_0000
        && (old(start).Some? ==> old(start).value <= event.timestamp)
        && var key := 2 * event.bus + if event.frame.flags.remote then 1 else 0;
           var time := seconds(if old(start).Some? then event.timestamp - old(start).value else 0);
           !(key in old(groups) && old(groups)[key].cycles > 0 && time < old(groups)[key].lastTime)
      ensures r.Err? ==> records == old(records) && groups == old(groups)
      ensures r.Ok? ==>
        && start.Some? && start.value <= event.timestamp
        && KeyOf(event) in groups && event.frame.dlc < 256
        && groups[KeyOf(event)].lastTime == seconds(event.timestamp - start.value)
        && records == old(records) + [Written(KeyOf(event), RecordBytes(groups[KeyOf(event)].id, seconds(event.timestamp - start.value), event))]
      ensures closed || !event.Valid() ==> start == old(start)
    {
      hide Valid;
      hide RecordBytes;
      if closed {
        return Err(Closed);
      }
      if !event.Valid() {
        return Err(InvalidRecord);
      }
      var offset :- TimeOffset(event.timestamp);
      var key := KeyOf(event);
      var time := seconds(offset);
      if Regresses(groups, key, time) {
        return Err(TimeRegresses);
      }
      if key !in groups {
        AddGroup(key, event.bus, event.frame.flags.remote);
      }
      AppendRecord(key, time, event);
      r := Ok(());
    }

    method AppendRecord(key: nat, time: nat, event: FrameEvent)
      requires Valid() && key in groups && event.Valid() && event.frame.dlc < 256
      modifies this`file, this`layout, this`groups, this`buffer, this`dataLink, this`dataOffset, this`records
      ensures Valid() && layout.markers == old(layout.markers)
      ensures groups.Keys == old(groups).Keys && groups[key].id == old(groups)[key].id && groups[key].lastTime == time
      ensures records == old(records) + [Written(key, RecordBytes(old(groups)[key].id, time, event))]
    {
      hide Valid;
      hide RecordBytes;
      var group := groups[key];
      var record := RecordBytes(group.id, time, event);
      RecordLength(group.id, time, event);
      if |buffer| + |record| > BUFFER_SIZE {
        Flush();
      }
      TakeRecord(key, time, record);
    }

    method TakeRecord(key: nat, time: nat, record: seq<byte>)
      requires Valid() && key in groups && |buffer| + |record| <= BUFFER_SIZE
      modifies this`groups, this`buffer, this`records
      ensures Valid() && groups.Keys == old(groups).Keys && groups[key].id == old(groups)[key].id && groups[key].lastTime == time
      ensures records == old(records) + [Written(key, record)]
    {
      hide Laid;
      hide ValidLayout;
      hide TailsOf;
      hide GroupsMatch;
      hide Total;
      hide Join;
      hide BytesOf;
      hide StartRecorded;
      var group := groups[key];
      RecordAccounts(layout.payloads, buffer, records, Written(key, record));
      RecordCounts(groups, keys, layout.blocks, layout.groupList, records, key, record, time);
      buffer := buffer + record;
      groups := groups[key := group.(cycles := group.cycles + 1, lastTime := time)];
      records := records + [Written(key, record)];
    }

    // ---- Close ---------------------------------------------------------------------------

    method PatchIdentification(at: nat, data: seq<byte>)
      requires Valid() && at + |data| <= 64
      modifies this`file
      ensures Valid() && file == Patched(old(file), at, data) && |file| >= 64
      ensures at == 60 && data == [0, 0] ==> file[60..62] == [0, 0]
    {
      hide ValidLayout;
      hide TailsOf;
      hide GroupsMatch;
      hide Total;
      hide Join;
      hide BytesOf;
      IdentificationIsApart(file, at, data, layout.blocks);
      file := Patched(file, at, data);
    }

    method WriteCounters()
      requires Valid()
      modifies this`file, this`layout
      ensures Valid() && layout == old(layout).(blocks := layout.blocks, counters := layout.counters) && |file| == old(|file|)
      ensures Counted(layout.counters, keys, records)
    {
      hide Valid;
      hide GroupsMatch;
      hide WrittenFor;
      hide Counted;
      var remaining := groups.Keys;
      ghost var done: set<nat> := {};
      CountersKnown();
      NoneWritten(layout.counters, groups);
      while remaining != {}
        invariant Valid() && layout == old(layout).(blocks := layout.blocks, counters := layout.counters) && |file| == old(|file|)
        invariant remaining <= groups.Keys && done == groups.Keys - remaining
        invariant WrittenFor(layout.counters, groups, done)
        decreases remaining
      {
        var key :| key in remaining;
        remaining := remaining - {key};
        WriteCounter(key, done);
        done := done + {key};
      }
      assert done == groups.Keys;
      CountersAreExact();
    }

    lemma CountersKnown()
      requires Valid()
      ensures |layout.counters| == |keys| && GroupsMatch(groups, keys, layout.blocks, layout.groupList, records)
    {
    }

    lemma CountersAreExact()
      requires Valid() && WrittenFor(layout.counters, groups, groups.Keys)
      ensures Counted(layout.counters, keys, records)
    {
      CountersKnown();
      hide Valid;
      GroupNumbers(groups, keys, layout.blocks, layout.groupList, records);
      GroupCounts(groups, keys, layout.blocks, layout.groupList, records);
      hide GroupsMatch;
      AllCounted(layout.counters, groups, keys, records);
    }

    method WriteCounter(key: nat, ghost done: set<nat>)
      requires Valid() && key in groups && done <= groups.Keys && WrittenFor(layout.counters, groups, done)
      modifies this`file, this`layout
      ensures Valid() && layout == old(layout).(blocks := layout.blocks, counters := layout.counters) && |file| == old(|file|)
      ensures WrittenFor(layout.counters, groups, done + {key})
    {
      hide Laid;
      hide ValidLayout;
      hide TailsOf;
      hide AllMatch;
      hide Word;
      hide Total;
      hide Join;
      hide BytesOf;
      hide WrittenFor;
      hide GroupsMatch;
      ghost var (l, t) := (layout, Tails(dataLink, eventLink, groupLink));
      var group := groups[key];
      GroupPlace(l, groups, keys, records, key);
      GroupNumbers(groups, keys, l.blocks, l.groupList, records);
      CounterKeepsLayout(l, group.id - 1, group.cycles, NANOSECONDS, t);
      PatchField(group.address + 80, group.cycles, l.groupList[group.id - 1], 8);
      CounterAccounts(l, groups, keys, records, key, start);
      CounterWritten(l.counters, groups, keys, done, key);
      layout := layout.(counters := layout.counters[group.id - 1 := group.cycles]);
    }

    /** Close: flush, the counters, and the identification last; afterwards the file reads back in full. */
    method Close()
      requires Valid()
      modifies this`file, this`layout, this`buffer, this`dataLink, this`dataOffset, this`closed
      ensures Valid() && closed && layout.markers == old(layout.markers)
      ensures old(closed) ==> file == old(file)
      ensures !old(closed) && |file| < TWO64 && |Join(BytesOf(records))| < TWO64 && |records| < TWO64 ==>
        Finished(file, BytesOf(records), layout.markers, start) && GroupsFinished(file, keys, records)
    {
      hide Valid;
      hide Finished;
      hide GroupsFinished;
      if closed {
        return;
      }
      closed := true;
      Flush();
      WriteCounters();
      PatchIdentification(60, [0, 0]);
      IdentificationReads(file);
      PatchIdentification(0, MDF);
      if |file| < TWO64 && |Join(BytesOf(records))| < TWO64 && |records| < TWO64 {
        ReadsBack();
      }
    }

    lemma ReadsBack()
      requires Valid() && buffer == [] && |file| < TWO64 && |Join(BytesOf(records))| < TWO64 && |records| < TWO64
      requires Counted(layout.counters, keys, records)
      requires file[0..8] == MDF && file[60..62] == [0, 0]
      ensures Finished(file, BytesOf(records), layout.markers, start) && GroupsFinished(file, keys, records)
    {
      hide Laid;
      hide ValidLayout;
      hide TailsOf;
      hide Follow;
      hide DataLists;
      hide EventBlocks;
      hide GroupBlocks;
      hide Counted;
      hide EventReadAs;
      hide BytesOf;
      hide GroupsMatch;
      hide DescriptionReads;
      AllFlushed(layout.payloads, BytesOf(records));
      PayloadsRead(file, layout, BytesOf(records));
      EventsRead(file, layout, NANOSECONDS);
      StartReads(file, layout, start);
      CountersFit(layout, keys, records);
      GroupsAreFew(file, layout);
      GroupsRead(file, layout, NANOSECONDS);
      GroupsDescribed(file, layout, groups, keys, records);
      GroupsFinish(file, layout.counters, keys, records);
    }
  }

  lemma {:induction false} RecordAccounts(payloads: seq<seq<byte>>, buffer: seq<byte>, records: seq<Written>, w: Written)
    requires Join(BytesOf(records)) == Join(payloads) + buffer
    ensures Join(BytesOf(records + [w])) == Join(payloads) + (buffer + w.bytes)
  {
    assert BytesOf(records + [w]) == BytesOf(records) + [w.bytes];
    assert BytesOf(records + [w])[..|records|] == BytesOf(records);
  }

  lemma RecordCounts(groups: map<nat, Group>, keys: seq<nat>, blocks: seq<Block>, list: seq<nat>, records: seq<Written>, key: nat, record: seq<byte>,
                     time: nat)
    requires GroupsMatch(groups, keys, blocks, list, records) && key in groups
    ensures GroupsMatch(groups[key := groups[key].(cycles := groups[key].cycles + 1, lastTime := time)], keys, blocks, list, records + [Written(key, record)])
  {
    hide CountOf;
    hide AllDescribed;
    var more := records + [Written(key, record)];
    var after := groups[key := groups[key].(cycles := groups[key].cycles + 1, lastTime := time)];
    assert after.Keys == groups.Keys;
    SameSize(groups, after);
    forall other | other in after
      ensures GroupMatches(after[other], other, keys, blocks, list, more)
    {
      assert GroupMatches(groups[other], other, keys, blocks, list, records);
      CountMore(records, Written(key, record), other);
    }
  }

  lemma {:induction false} CountMore(records: seq<Written>, w: Written, key: nat)
    ensures CountOf(records + [w], key) == CountOf(records, key) + if w.key == key then 1 else 0
  {
    assert (records + [w])[..|records|] == records;
  }

  lemma SameSize(left: map<nat, Group>, right: map<nat, Group>)
    requires left.Keys == right.Keys
    ensures |left| == |right|
  {
    assert |left| == |left.Keys| && |right| == |right.Keys|;
  }

  lemma ReadyForGroup(l: Layout, t: Tails)
    requires ValidLayout(l, NANOSECONDS) && TailsOf(l, t)
    ensures TailBlock(l.dg, l.groupList) < |l.blocks| && TailLink(1, l.groupList) < |l.blocks[TailBlock(l.dg, l.groupList)].links|
    ensures t.group == TailPosition(l.blocks, l.dg, 1, l.groupList)
  {
    hide Contents;
    hide Heads;
    HookedIndexes(l.blocks, l.dg, 1, l.groupList, CG);
  }

  lemma {:induction false} CountNone(records: seq<Written>, key: nat)
    requires forall i :: 0 <= i < |records| ==> records[i].key != key
    ensures CountOf(records, key) == 0
  {
    if records != [] {
      CountNone(records[..|records| - 1], key);
    }
  }

  lemma GroupedLayout(l: Layout, cg: Block, size: nat, t: Tails, groups: map<nat, Group>, keys: seq<nat>, records: seq<Written>, start: Option<nat>, key: nat,
                      d: Description)
    requires ValidLayout(l, NANOSECONDS) && TailsOf(l, t) && cg.kind == CG && |cg.links| == 6 && cg.links[0] == 0
    requires Describes(l.blocks, IsRemote(key), d) && cg.links[1] == l.blocks[d.master].address
    requires GroupsMatch(groups, keys, l.blocks, l.groupList, records) && StartRecorded(l, start) && key !in groups
    requires cg.data == GroupData(|groups| + 1, 0, size)
    ensures TailBlock(l.dg, l.groupList) < |l.blocks| && TailLink(1, l.groupList) < |l.blocks[TailBlock(l.dg, l.groupList)].links|
    ensures var m := WithGroup(l, cg);
      && ValidLayout(m, NANOSECONDS) && TailsOf(m, t.(group := cg.address + 24))
      && GroupsMatch(groups[key := Group(cg.address, |groups| + 1, 0, 0)], keys + [key], m.blocks, m.groupList, records) && StartRecorded(m, start)
      && m.blocks == Extended(l.blocks, cg, l.dg, 1, l.groupList)
      && m.payloads == l.payloads && m.markers == l.markers && |groups| == |keys|
  {
    hide Hooks;
    hide Contents;
    hide GroupData;
    hide Word;
    hide Describes;
    hide Described;
    hide Stands;
    GroupAppended(l, cg, size, NANOSECONDS, t);
    hide TailsOf;
    GroupHooks(l, cg, NANOSECONDS, t);
    var m := WithGroup(l, cg);
    GroupsSurvive(groups, keys, l.blocks, m.blocks, l.groupList, records);
    HeaderSurvives(l, m.blocks);
    GrowthStands(l.blocks, m.blocks);
    NewIsDescribed(l.blocks, m.blocks, cg, IsRemote(key), d);
    hide Heads;
    hide Extended;
    hide GroupsMatch;
    hide StartRecorded;
    hide Grows;
    GroupsGrow(groups, keys, m.blocks, l.groupList, |l.blocks|, records, key, cg.address);
  }

  lemma NewIsDescribed(blocks: seq<Block>, after: seq<Block>, cg: Block, remote: bool, d: Description)
    requires Stands(blocks, after) && |after| == |blocks| + 1 && after[|blocks|] == cg
    requires cg.kind == CG && |cg.links| == 6 && Describes(blocks, remote, d) && cg.links[1] == blocks[d.master].address
    ensures Described(after, |blocks|, remote)
  {
    hide IsChannel;
    hide AreMembers;
    hide SameDescription;
    DescriptionStands(blocks, after, remote, d);
    assert DescribedBy(after, |blocks|, remote, d);
  }

  lemma GroupsGrow(groups: map<nat, Group>, keys: seq<nat>, blocks: seq<Block>, list: seq<nat>, last: nat, records: seq<Written>, key: nat, address: nat)
    requires GroupsMatch(groups, keys, blocks, list, records) && key !in groups
    requires last < |blocks| && blocks[last].address == address && Described(blocks, last, IsRemote(key))
    ensures GroupsMatch(groups[key := Group(address, |groups| + 1, 0, 0)], keys + [key], blocks, list + [last], records)
  {
    hide Described;
    OneMoreDescribed(blocks, list, keys, last, key);
    hide AllDescribed;
    var after := groups[key := Group(address, |groups| + 1, 0, 0)];
    OneMore(groups, after, key);
    NewIsNumbered(groups, keys, records, key, address);
    NewMatches(keys, blocks, list, last, records, key, address);
    hide RecordsKnown;
    hide Numbered;
    AllMatchMore(groups, keys, blocks, list, last, records, key, Group(address, |groups| + 1, 0, 0));
    hide AllMatch;
  }

  lemma AllMatchMore(groups: map<nat, Group>, keys: seq<nat>, blocks: seq<Block>, list: seq<nat>, last: nat, records: seq<Written>, key: nat, group: Group)
    requires AllMatch(groups, keys, blocks, list, records)
    requires GroupMatches(group, key, keys + [key], blocks, list + [last], records)
    ensures AllMatch(groups[key := group], keys + [key], blocks, list + [last], records)
  {
    hide GroupMatches;
    forall other | other in groups
      ensures GroupMatches(groups[other], other, keys + [key], blocks, list + [last], records)
    {
      MatchInLonger(groups[other], other, keys, key, blocks, list, last, records);
    }
  }

  lemma NewIsNumbered(groups: map<nat, Group>, keys: seq<nat>, records: seq<Written>, key: nat, address: nat)
    requires RecordsKnown(groups, records) && Numbered(groups, keys) && key !in groups && |groups| == |keys|
    ensures var after := groups[key := Group(address, |groups| + 1, 0, 0)];
      RecordsKnown(after, records) && Numbered(after, keys + [key]) && forall i :: 0 <= i < |records| ==> records[i].key != key
  {
  }

  lemma NewMatches(keys: seq<nat>, blocks: seq<Block>, list: seq<nat>, last: nat, records: seq<Written>, key: nat, address: nat)
    requires |keys| == |list| && last < |blocks| && blocks[last].address == address
    requires forall i :: 0 <= i < |records| ==> records[i].key != key
    ensures GroupMatches(Group(address, |keys| + 1, 0, 0), key, keys + [key], blocks, list + [last], records)
  {
    CountNone(records, key);
  }

  lemma MatchInLonger(group: Group, other: nat, keys: seq<nat>, key: nat, blocks: seq<Block>, list: seq<nat>, last: nat, records: seq<Written>)
    requires GroupMatches(group, other, keys, blocks, list, records)
    ensures GroupMatches(group, other, keys + [key], blocks, list + [last], records)
  {
    hide CountOf;
  }

  lemma OneMore(left: map<nat, Group>, right: map<nat, Group>, key: nat)
    requires key !in left && right.Keys == left.Keys + {key}
    ensures |right| == |left| + 1
  {
    assert |left| == |left.Keys| && |right| == |right.Keys|;
  }

  const MDF: seq<byte> := [0x4d, 0x44, 0x46, 0x20, 0x20, 0x20, 0x20, 0x20]

  /** What a reader gets out of a finished file, from its bytes alone. */
  ghost predicate Finished(file: seq<byte>, pieces: seq<seq<byte>>, markers: seq<Marker>, start: Option<nat>) {
    && |file| >= 144 && file[0..8] == MDF && file[60..62] == [0, 0]
    && (start.Some? ==> Read(file, 136) == start.value)
    && ReadRecords(file, DataLists(file)) == Join(pieces)
    && (forall i :: 0 <= i < |DataLists(file)| ==> ReadOffset(file, DataLists(file)[i]) == |ReadRecords(file, DataLists(file)[..i])|)
    && |EventBlocks(file)| == |markers| && (forall i :: 0 <= i < |markers| ==> EventReadAs(file, EventBlocks(file)[i], markers[i]))
  }

  ghost predicate GroupsFinished(file: seq<byte>, keys: seq<nat>, records: seq<Written>) {
    && |GroupBlocks(file)| == |keys|
    && forall i :: 0 <= i < |keys| ==>
         && Read(file, GroupBlocks(file)[i] + 72) == i + 1 && Read(file, GroupBlocks(file)[i] + 80) == CountOf(records, keys[i])
         && DescriptionReads(file, GroupBlocks(file)[i], IsRemote(keys[i]))
  }

  ghost predicate Counted(counters: seq<nat>, keys: seq<nat>, records: seq<Written>) {
    |counters| == |keys| && forall i :: 0 <= i < |keys| ==> counters[i] == CountOf(records, keys[i])
  }

  // The counters of these groups have been written.
  ghost predicate WrittenFor(counters: seq<nat>, groups: map<nat, Group>, done: set<nat>) {
    forall key :: key in done ==> key in groups && 1 <= groups[key].id <= |counters| && counters[groups[key].id - 1] == groups[key].cycles
  }

  lemma IdentificationIsApart(file: seq<byte>, at: nat, data: seq<byte>, blocks: seq<Block>)
    requires Laid(file, blocks) && at + |data| <= 64 <= |file|
    ensures Laid(Patched(file, at, data), blocks)
  {
    hide Encode;
    forall k | 0 <= k < |blocks|
      ensures Holds(Patched(file, at, data), blocks[k])
    {
      HoldsElsewhere(file, at, data, blocks[k]);
    }
  }

  lemma GroupPlace(l: Layout, groups: map<nat, Group>, keys: seq<nat>, records: seq<Written>, key: nat)
    requires ValidLayout(l, NANOSECONDS) && GroupsMatch(groups, keys, l.blocks, l.groupList, records) && key in groups
    ensures 1 <= groups[key].id <= |l.groupList| && |l.counters| == |l.groupList| == |keys|
    ensures var k := l.groupList[groups[key].id - 1];
      && k < |l.blocks| && |l.blocks[k].links| == 6 && |l.blocks[k].data| == 32 && l.blocks[k].address == groups[key].address
  {
    hide Hooks;
    hide CountOf;
    assert GroupMatches(groups[key], key, keys, l.blocks, l.groupList, records);
    assert GroupContent(l.blocks, l.groupList[groups[key].id - 1], groups[key].id, l.counters[groups[key].id - 1]);
  }

  lemma CounterAccounts(l: Layout, groups: map<nat, Group>, keys: seq<nat>, records: seq<Written>, key: nat, start: Option<nat>)
    requires ValidLayout(l, NANOSECONDS) && GroupsMatch(groups, keys, l.blocks, l.groupList, records) && key in groups
    requires StartRecorded(l, start)
    ensures 1 <= groups[key].id <= |l.groupList| && l.groupList[groups[key].id - 1] < |l.blocks|
    ensures var k := l.groupList[groups[key].id - 1];
      && |l.blocks[k].data| == 32
      && var after := l.blocks[k := Rewritten(l.blocks[k], 8, Word(groups[key].cycles))];
      GroupsMatch(groups, keys, after, l.groupList, records) && StartRecorded(l.(blocks := after), start)
  {
    GroupPlace(l, groups, keys, records, key);
    GroupKind(l, groups[key].id - 1);
    var k := l.groupList[groups[key].id - 1];
    CounterIsNotHeader(l, k, groups[key].cycles, start);
    CounterKeepsGroups(l.blocks, k, groups[key].cycles, groups, keys, l.groupList, records);
    hide ValidLayout;
    hide GroupsMatch;
    hide StartRecorded;
    hide Word;
  }

  lemma RewrittenIsDescribed(groups: map<nat, Group>, keys: seq<nat>, blocks: seq<Block>, list: seq<nat>, records: seq<Written>,
                             k: nat, at: nat, data: seq<byte>)
    requires GroupsMatch(groups, keys, blocks, list, records) && k < |blocks| && (blocks[k].kind == CG || blocks[k].kind == HD)
    requires at + |data| <= |blocks[k].data|
    ensures AllDescribed(blocks[k := Rewritten(blocks[k], at, data)], list, keys)
  {
    hide Described;
    ChannelKindsAreFixed();
    RewriteStands(blocks, k, at, data);
    AllStand(blocks, blocks[k := Rewritten(blocks[k], at, data)], list, keys);
  }

  lemma CounterKeepsGroups(blocks: seq<Block>, k: nat, cycles: nat, groups: map<nat, Group>, keys: seq<nat>, list: seq<nat>, records: seq<Written>)
    requires GroupsMatch(groups, keys, blocks, list, records) && k < |blocks| && |blocks[k].data| == 32 && blocks[k].kind == CG
    ensures GroupsMatch(groups, keys, blocks[k := Rewritten(blocks[k], 8, Word(cycles))], list, records)
  {
    RewrittenIsDescribed(groups, keys, blocks, list, records, k, 8, Word(cycles));
    hide GroupsMatch;
    hide Word;
    GroupsSameAddresses(groups, keys, blocks, blocks[k := Rewritten(blocks[k], 8, Word(cycles))], list, records);
  }

  lemma CounterIsNotHeader(l: Layout, k: nat, cycles: nat, start: Option<nat>)
    requires Heads(l) && StartRecorded(l, start) && k < |l.blocks| && l.blocks[k].kind == CG && |l.blocks[k].data| == 32
    ensures StartRecorded(l.(blocks := l.blocks[k := Rewritten(l.blocks[k], 8, Word(cycles))]), start)
  {
    hide Word;
    KindsDiffer();
  }

  lemma {:induction false} AllCounted(counters: seq<nat>, groups: map<nat, Group>, keys: seq<nat>, records: seq<Written>)
    requires Numbered(groups, keys) && |counters| == |keys| && WrittenFor(counters, groups, groups.Keys)
    requires forall key :: key in groups ==> groups[key].cycles == CountOf(records, key)
    ensures Counted(counters, keys, records)
  {
    hide CountOf;
    forall i | 0 <= i < |keys|
      ensures counters[i] == CountOf(records, keys[i])
    {
      assert keys[i] in groups.Keys;
    }
  }

  lemma GroupsSameAddresses(groups: map<nat, Group>, keys: seq<nat>, blocks: seq<Block>, after: seq<Block>, list: seq<nat>, records: seq<Written>)
    requires GroupsMatch(groups, keys, blocks, list, records) && |after| == |blocks|
    requires forall k :: 0 <= k < |blocks| ==> after[k].address == blocks[k].address
    requires AllDescribed(after, list, keys)
    ensures GroupsMatch(groups, keys, after, list, records)
  {
    hide AllDescribed;
    hide CountOf;
    forall key | key in groups
      ensures GroupMatches(groups[key], key, keys, after, list, records)
    {
      assert GroupMatches(groups[key], key, keys, blocks, list, records);
    }
  }

  lemma GroupNumbers(groups: map<nat, Group>, keys: seq<nat>, blocks: seq<Block>, list: seq<nat>, records: seq<Written>)
    requires GroupsMatch(groups, keys, blocks, list, records)
    ensures Numbered(groups, keys) && |keys| == |list|
    ensures forall key :: key in groups ==> 1 <= groups[key].id <= |keys| && keys[groups[key].id - 1] == key
  {
    hide CountOf;
    forall key | key in groups
      ensures 1 <= groups[key].id <= |keys| && keys[groups[key].id - 1] == key
    {
      assert GroupMatches(groups[key], key, keys, blocks, list, records);
    }
  }

  lemma {:induction false} GroupCounts(groups: map<nat, Group>, keys: seq<nat>, blocks: seq<Block>, list: seq<nat>, records: seq<Written>)
    requires GroupsMatch(groups, keys, blocks, list, records)
    ensures forall key :: key in groups ==> groups[key].cycles == CountOf(records, key)
  {
    hide CountOf;
    forall key | key in groups
      ensures groups[key].cycles == CountOf(records, key)
    {
      assert GroupMatches(groups[key], key, keys, blocks, list, records);
    }
  }

  lemma IdentificationReads(file: seq<byte>)
    requires |file| >= 64 && file[60..62] == [0, 0]
    ensures Patched(file, 0, MDF)[0..8] == MDF && Patched(file, 0, MDF)[60..62] == [0, 0]
  {
    var after := Patched(file, 0, MDF);
    forall i | 60 <= i < 62
      ensures after[i] == file[i]
    {
    }
    assert after[60..62] == file[60..62];
  }

  lemma {:induction false} AddressesGrow(file: seq<byte>, blocks: seq<Block>, k: nat)
    requires Laid(file, blocks) && k < |blocks|
    ensures k < blocks[k].address < |file|
  {
    hide Encode;
    assert Holds(file, blocks[k]);
    if k > 0 {
      AddressesGrow(file, blocks, k - 1);
      assert blocks[k - 1].End() <= blocks[k].address;
    }
  }

  lemma {:induction false} IndexesGrow(blocks: seq<Block>, list: seq<nat>, i: nat)
    requires Ordered(blocks, list) && i < |list|
    ensures i <= list[i] < |blocks|
  {
    if i > 0 {
      IndexesGrow(blocks, list, i - 1);
    }
  }

  lemma GroupsAreFew(file: seq<byte>, l: Layout)
    requires Laid(file, l.blocks) && ValidLayout(l, NANOSECONDS)
    ensures |l.counters| <= |file|
  {
    hide Laid;
    if l.groupList != [] {
      IndexesGrow(l.blocks, l.groupList, |l.groupList| - 1);
      AddressesGrow(file, l.blocks, l.groupList[|l.groupList| - 1]);
    }
  }

  lemma NoneWritten(counters: seq<nat>, groups: map<nat, Group>)
    ensures WrittenFor(counters, groups, {})
  {
  }

  lemma CounterWritten(counters: seq<nat>, groups: map<nat, Group>, keys: seq<nat>, done: set<nat>, key: nat)
    requires WrittenFor(counters, groups, done) && key in groups && 1 <= groups[key].id <= |counters| == |keys|
    requires Numbered(groups, keys) && forall other :: other in groups ==> 1 <= groups[other].id <= |keys| && keys[groups[other].id - 1] == other
    ensures WrittenFor(counters[groups[key].id - 1 := groups[key].cycles], groups, done + {key})
  {
  }

  lemma {:induction false} AllFlushed(payloads: seq<seq<byte>>, pieces: seq<seq<byte>>)
    requires Join(pieces) == Join(payloads) + [] && |Join(pieces)| < TWO64
    ensures Join(pieces) == Join(payloads) && Total(payloads) < TWO64
  {
    JoinLength(payloads);
  }

  lemma {:induction false} PayloadsRead(file: seq<byte>, l: Layout, pieces: seq<seq<byte>>)
    requires Laid(file, l.blocks) && ValidLayout(l, NANOSECONDS) && |file| < TWO64 && Total(l.payloads) < TWO64
    requires Join(pieces) == Join(l.payloads)
    ensures ReadRecords(file, DataLists(file)) == Join(pieces)
    ensures forall i :: 0 <= i < |DataLists(file)| ==> ReadOffset(file, DataLists(file)[i]) == |ReadRecords(file, DataLists(file)[..i])|
  {
    hide Laid;
    hide ValidLayout;
    hide DataLists;
    hide ReadOffset;
    hide ReadRecords;
    hide Join;
    hide Total;
    var n := |l.payloads|;
    DataReads(file, l, NANOSECONDS, n);
    assert DataLists(file)[..n] == DataLists(file) && l.payloads[..n] == l.payloads;
    forall i | 0 <= i < |DataLists(file)|
      ensures ReadOffset(file, DataLists(file)[i]) == |ReadRecords(file, DataLists(file)[..i])|
    {
      DataReads(file, l, NANOSECONDS, i);
      ListReads(file, l, NANOSECONDS, i);
      JoinLength(l.payloads[..i]);
    }
  }

  lemma HeaderFits(file: seq<byte>, blocks: seq<Block>)
    requires Laid(file, blocks) && blocks != [] && blocks[0].address == 64 && |blocks[0].links| == 6 && |blocks[0].data| == 32
    ensures Holds(file, blocks[0]) && blocks[0].Length() < TWO64 && |file| >= 144
  {
    hide Encode;
  }

  lemma StartReads(file: seq<byte>, l: Layout, start: Option<nat>)
    requires Laid(file, l.blocks) && ValidLayout(l, NANOSECONDS) && |file| < TWO64 && StartRecorded(l, start)
    ensures |file| >= 144 && (start.Some? ==> Read(file, 136) == start.value)
  {
    hide Encode;
    hide Word;
    hide WordAt;
    hide ValidLayout;
    hide Laid;
    hide Holds;
    HeaderIsFirst(l);
    HeaderFits(file, l.blocks);
    if start.Some? {
      ReadField(file, l.blocks[0], 0, start.value);
    }
  }

  lemma {:induction false} CountAtMost(records: seq<Written>, key: nat)
    ensures CountOf(records, key) <= |records|
  {
    if records != [] {
      CountAtMost(records[..|records| - 1], key);
    }
  }

  lemma CountersFit(l: Layout, keys: seq<nat>, records: seq<Written>)
    requires Counted(l.counters, keys, records) && |records| < TWO64
    ensures forall i :: 0 <= i < |l.counters| ==> l.counters[i] < TWO64
    ensures |l.counters| == |keys|
  {
    forall i | 0 <= i < |l.counters|
      ensures l.counters[i] < TWO64
    {
      CountAtMost(records, keys[i]);
    }
  }

  lemma GroupsDescribed(file: seq<byte>, l: Layout, groups: map<nat, Group>, keys: seq<nat>, records: seq<Written>)
    requires Laid(file, l.blocks) && ValidLayout(l, NANOSECONDS) && |file| < TWO64
    requires GroupsMatch(groups, keys, l.blocks, l.groupList, records)
    ensures |GroupBlocks(file)| == |keys|
    ensures forall i :: 0 <= i < |keys| ==> DescriptionReads(file, GroupBlocks(file)[i], IsRemote(keys[i]))
  {
    hide Laid;
    hide ValidLayout;
    hide GroupBlocks;
    hide Described;
    hide DescriptionReads;
    hide AllMatch;
    hide Numbered;
    hide RecordsKnown;
    GroupAddresses(file, l, NANOSECONDS);
    forall i | 0 <= i < |keys|
      ensures DescriptionReads(file, GroupBlocks(file)[i], IsRemote(keys[i]))
    {
      DescribedReads(file, l.blocks, l.groupList[i], IsRemote(keys[i]));
    }
  }

  lemma GroupsFinish(file: seq<byte>, counters: seq<nat>, keys: seq<nat>, records: seq<Written>)
    requires Counted(counters, keys, records) && |GroupBlocks(file)| == |counters|
    requires forall i :: 0 <= i < |counters| ==>
      Read(file, GroupBlocks(file)[i] + 72) == i + 1 && Read(file, GroupBlocks(file)[i] + 80) == counters[i]
    requires forall i :: 0 <= i < |counters| && i < |keys| ==> DescriptionReads(file, GroupBlocks(file)[i], IsRemote(keys[i]))
    ensures GroupsFinished(file, keys, records)
  {
    hide DescriptionReads;
    hide GroupBlocks;
    hide Read;
    hide CountOf;
  }

  lemma HeaderIsFirst(l: Layout)
    requires ValidLayout(l, NANOSECONDS)
    ensures l.blocks != [] && l.blocks[0].address == 64 && |l.blocks[0].links| == 6 && |l.blocks[0].data| == 32
  {
  }

  lemma StartAccounts(l: Layout, value: nat, groups: map<nat, Group>, keys: seq<nat>, records: seq<Written>)
    requires ValidLayout(l, NANOSECONDS) && GroupsMatch(groups, keys, l.blocks, l.groupList, records) && value < MAX_TIME
    ensures l.blocks != [] && |l.blocks[0].data| == 32
    ensures var after := l.blocks[0 := Rewritten(l.blocks[0], 0, Word(value))];
      && GroupsMatch(groups, keys, after, l.groupList, records) && StartRecorded(l.(blocks := after), Some(value))
  {
    hide Word;
    hide Hooks;
    hide Contents;
    hide AllDescribed;
    RewrittenIsDescribed(groups, keys, l.blocks, l.groupList, records, 0, 0, Word(value));
    GroupsSameAddresses(groups, keys, l.blocks, l.blocks[0 := Rewritten(l.blocks[0], 0, Word(value))], l.groupList, records);
    hide GroupsMatch;
  }

  // Blocks outside the chains change nothing that is accounted for.
  lemma LooseAccounts(l: Layout, after: seq<Block>, factor: nat, groups: map<nat, Group>, keys: seq<nat>, records: seq<Written>, start: Option<nat>)
    requires ValidLayout(l, factor) && l.blocks <= after && StartRecorded(l, start)
    requires GroupsMatch(groups, keys, l.blocks, l.groupList, records)
    ensures GroupsMatch(groups, keys, after, l.groupList, records) && StartRecorded(l.(blocks := after), start)
  {
    hide Hooks;
    hide Contents;
    hide Word;
    assert after == l.blocks + after[|l.blocks|..];
    AppendGrows(l.blocks, after[|l.blocks|..]);
    GroupsSurvive(groups, keys, l.blocks, after, l.groupList, records);
  }

  lemma ReadyForEvent(l: Layout, t: Tails)
    requires ValidLayout(l, NANOSECONDS) && TailsOf(l, t)
    ensures TailBlock(0, l.eventList) < |l.blocks| && TailLink(4, l.eventList) < |l.blocks[TailBlock(0, l.eventList)].links|
    ensures t.event == TailPosition(l.blocks, 0, 4, l.eventList)
  {
    hide Contents;
    hide Heads;
    HookedIndexes(l.blocks, 0, 4, l.eventList, EV);
  }

  lemma MarkerIsThere(l: Layout, k: Layout, ev: Block, marker: Marker, name: nat, details: nat)
    requires ValidLayout(l, NANOSECONDS) && ev.kind == EV && ev.links == [0, 0, 0, name, details] && ev.data == EventData(marker.offset, NANOSECONDS)
    requires var title := Block(name, TX, [], TextData(marker.title));
      k.blocks == match marker.comment
        case None => l.blocks + [title]
        case Some(comment) => l.blocks + [title] + [Block(details, MD, [], TextData(comment))]
    requires marker.comment.None? ==> details == 0
    ensures EventContent(k.blocks + [ev], |k.blocks|, marker, NANOSECONDS)
  {
    hide TextData;
    hide EventData;
    hide Hooks;
    hide Contents;
  }

  lemma MarkedLayout(l: Layout, ev: Block, marker: Marker, t: Tails, groups: map<nat, Group>, keys: seq<nat>, records: seq<Written>, start: Option<nat>)
    requires ValidLayout(l, NANOSECONDS) && TailsOf(l, t) && ev.kind == EV && |ev.links| == 5 && ev.links[0] == 0
    requires EventContent(l.blocks + [ev], |l.blocks|, marker, NANOSECONDS)
    requires GroupsMatch(groups, keys, l.blocks, l.groupList, records) && StartRecorded(l, start)
    ensures TailBlock(0, l.eventList) < |l.blocks| && TailLink(4, l.eventList) < |l.blocks[TailBlock(0, l.eventList)].links|
    ensures var m := WithEvent(l, ev, marker);
      && ValidLayout(m, NANOSECONDS) && TailsOf(m, t.(event := ev.address + 24))
      && GroupsMatch(groups, keys, m.blocks, l.groupList, records) && StartRecorded(m, start)
      && m.blocks == Extended(l.blocks, ev, 0, 4, l.eventList) && m.markers == l.markers + [marker]
      && m.payloads == l.payloads && m.groupList == l.groupList
  {
    hide Hooks;
    hide Contents;
    hide EventContent;
    hide Word;
    EventAppended(l, ev, marker, NANOSECONDS, t);
    hide TailsOf;
    EventHooks(l, ev, marker, NANOSECONDS, t);
    GroupsSurvive(groups, keys, l.blocks, WithEvent(l, ev, marker).blocks, l.groupList, records);
    HeaderSurvives(l, WithEvent(l, ev, marker).blocks);
  }

  lemma ReadyForData(l: Layout, dt: Block, t: Tails)
    requires ValidLayout(l, NANOSECONDS) && TailsOf(l, t)
    ensures var k := l.(blocks := l.blocks + [dt]);
      && TailBlock(k.dg, k.dataList) < |k.blocks| && TailLink(2, k.dataList) < |k.blocks[TailBlock(k.dg, k.dataList)].links|
      && t.data == TailPosition(k.blocks, k.dg, 2, k.dataList)
  {
    hide Contents;
    hide Heads;
    HookedIndexes(l.blocks, l.dg, 2, l.dataList, DL);
  }

  lemma {:induction false} FlushAccounts(payloads: seq<seq<byte>>, buffer: seq<byte>)
    ensures Join(payloads + [buffer]) == Join(payloads) + buffer
    ensures Total(payloads + [buffer]) == Total(payloads) + |buffer|
    ensures Join(payloads) + buffer + [] == Join(payloads) + buffer
  {
    assert (payloads + [buffer])[..|payloads|] == payloads;
  }

  lemma FlushedLayout(l: Layout, dt: Block, dl: Block, t: Tails, groups: map<nat, Group>, keys: seq<nat>, records: seq<Written>)
    requires ValidLayout(l, NANOSECONDS) && TailsOf(l, t) && dt.kind == DT && dl.kind == DL && dl.links == [0, dt.address]
    requires dt.links == [] && dl.data == ListData(Total(l.payloads))
    requires GroupsMatch(groups, keys, l.blocks, l.groupList, records)
    ensures var k := l.(blocks := l.blocks + [dt]);
      && TailBlock(k.dg, k.dataList) < |k.blocks| && TailLink(2, k.dataList) < |k.blocks[TailBlock(k.dg, k.dataList)].links|
      && var m := WithData(k, dl, dt.data);
      && ValidLayout(m, NANOSECONDS) && TailsOf(m, t.(data := dl.address + 24))
      && GroupsMatch(groups, keys, m.blocks, l.groupList, records)
      && m.blocks == Extended(k.blocks, dl, k.dg, 2, k.dataList) && m.payloads == l.payloads + [dt.data]
      && HeaderData(m) == HeaderData(l)
      && m.markers == l.markers && m.counters == l.counters && m.groupList == l.groupList
  {
    hide ListData;
    hide Hooks;
    hide Contents;
    DataAppended(l, dt, dl, NANOSECONDS, t);
    var k := l.(blocks := l.blocks + [dt]);
    AppendKeepsLayout(l, [dt], NANOSECONDS);
    AppendKeepsTails(l, [dt], NANOSECONDS, t);
    hide TailsOf;
    DataHooks(k, dl, NANOSECONDS, t);
    AppendGrows(l.blocks, [dt]);
    GroupsSurvive(groups, keys, l.blocks, k.blocks, l.groupList, records);
    GroupsSurvive(groups, keys, k.blocks, WithData(k, dl, dt.data).blocks, l.groupList, records);
    HeaderSurvives(k, WithData(k, dl, dt.data).blocks);
  }

  lemma HeaderSurvives(l: Layout, after: seq<Block>)
    requires Heads(l) && Grows(l.blocks, after)
    ensures HeaderData(l.(blocks := after)) == HeaderData(l)
  {
    assert SameBut(l.blocks[0], after[0]);
  }

  // Addresses of group blocks survive growth.
  lemma GroupsSurvive(groups: map<nat, Group>, keys: seq<nat>, blocks: seq<Block>, after: seq<Block>, list: seq<nat>, records: seq<Written>)
    requires GroupsMatch(groups, keys, blocks, list, records) && Grows(blocks, after)
    ensures GroupsMatch(groups, keys, after, list, records)
  {
    hide Described;
    GrowthStands(blocks, after);
    AllStand(blocks, after, list, keys);
    hide AllDescribed;
    hide SameDescription;
    forall i | 0 <= i < |list|
      ensures list[i] < |after| && after[list[i]].address == blocks[list[i]].address
    {
      assert SameBut(blocks[list[i]], after[list[i]]);
    }
    hide CountOf;
    forall key | key in groups
      ensures GroupMatches(groups[key], key, keys, after, list, records)
    {
      assert GroupMatches(groups[key], key, keys, blocks, list, records);
    }
  }
}
