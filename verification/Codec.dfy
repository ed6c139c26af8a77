/** Gossip packets. A packet is a sequence of self-delimiting records of positive size; encoding stops at
    the packet limit, and decoding reads until the end of the packet. */
module Codec {
  import opened GossipState

  const MESSAGE_TYPE_DIGEST: nat := 1
  const MESSAGE_TYPE_DELTA: nat := 2
  const SUPPORTED_VERSION: nat := 0

  datatype DigestHeader = DigestHeader(nodeID: string, addr: string, request: bool)
  datatype DeltaHeader = DeltaHeader(nodeID: string, addr: string, entries: int)

  datatype Record =
    | Byte(value: nat)
    | DigestHeaderRecord(digestHeader: DigestHeader)
    | DeltaHeaderRecord(header: DeltaHeader)
    | DigestRecord(digestEntry: DigestEntry)
    | EntryRecord(entry: Entry)

  type Packet = seq<Record>

  datatype Result<+T> = Ok(value: T) | Err

  ghost predicate Positive(size: Record -> nat) {
    forall r :: size(r) > 0
  }

  /** The encoded size of each record, whatever the encoding. */
  type Sizes = size: Record -> nat | Positive(size) ghost witness (r => 1)

  function Length(p: Packet, size: Sizes): nat {
    if p == [] then 0 else Length(p[..|p| - 1], size) + size(p[|p| - 1])
  }

  lemma LengthAdd(p: Packet, r: Record, size: Sizes)
    ensures Length(p + [r], size) == Length(p, size) + size(r)
  {
    assert (p + [r])[..|p|] == p;
  }

  lemma {:induction false} LengthGrows(p: Packet, m: nat, n: nat, size: Sizes)
    requires m <= n <= |p|
    ensures Length(p[..m], size) <= Length(p[..n], size)
    ensures m < n ==> Length(p[..m], size) < Length(p[..n], size)
    decreases n
  {
    if m < n {
      assert p[..n][..n - 1] == p[..n - 1];
      LengthGrows(p, m, n - 1, size);
    }
  }

  /** `p` is the longest prefix of `all` within the limit. */
  ghost predicate LongestFit(all: Packet, p: Packet, limit: int, size: Sizes) {
    && p <= all && Length(p, size) <= limit
    && (|p| < |all| ==> Length(all[..|p| + 1], size) > limit)
  }

  // ---------- What is sent ----------

  function DigestHead(header: DigestHeader): Packet {
    [Byte(MESSAGE_TYPE_DIGEST), Byte(SUPPORTED_VERSION), DigestHeaderRecord(header)]
  }

  function DeltaHead(header: DeltaHeader): Packet {
    [Byte(MESSAGE_TYPE_DELTA), Byte(SUPPORTED_VERSION), DeltaHeaderRecord(header)]
  }

  function DigestRecords(digest: Digest): Packet {
    seq(|digest|, i requires 0 <= i < |digest| => DigestRecord(digest[i]))
  }

  function EntryRecords(es: seq<Entry>): Packet {
    seq(|es|, i requires 0 <= i < |es| => EntryRecord(es[i]))
  }

  function NodeRecords(de: DeltaEntry): Packet {
    [DeltaHeaderRecord(DeltaHeader(de.id, de.addr, |de.entries|))] + EntryRecords(de.entries)
  }

  function DeltaRecords(delta: Delta): Packet {
    if delta == [] then [] else NodeRecords(delta[0]) + DeltaRecords(delta[1..])
  }

  // ---------- Encoding ----------

  /** The state of an encoder that writes `all`: within the limit everything so far is to be sent; once
      over it, what is to be sent is the longest prefix that fits. */
  ghost predicate Writing(all: Packet, buf: Packet, bufLen: nat, over: bool, limit: int, size: Sizes) {
    if over then bufLen <= |buf| && LongestFit(all, buf[..bufLen], limit, size) && Length(buf, size) > limit
    else bufLen == |buf| && buf <= all && Length(buf, size) <= limit
  }

  /** Writes one more record and checks the limit; `all` and `over` are for the proof. */
  method Append(buf: Packet, bufLen: nat, r: Record, limit: int, size: Sizes, ghost all: Packet, ghost over: bool)
    returns (buf': Packet, bufLen': nat, fits: bool)
    requires Writing(all, buf, bufLen, over, limit, size)
    requires !over ==> |buf| < |all| && all[|buf|] == r
    ensures Writing(all, buf', bufLen', !fits, limit, size)
    ensures buf' == buf + [r] && bufLen <= bufLen' && buf'[..bufLen] == buf[..bufLen]
    ensures over ==> !fits
  {
    LengthAdd(buf, r, size);
    buf' := buf + [r];
    assert buf'[..bufLen] == buf[..bufLen];
    if Length(buf', size) > limit {
      bufLen', fits := bufLen, false;
      if !over {
        assert buf'[..bufLen] == buf;
        assert buf' == all[..bufLen + 1];
      }
    } else {
      bufLen', fits := |buf'|, true;
    }
  }

  /** Encodes the header, then as many digest entries as fit. */
  method EncodeDigest(header: DigestHeader, digest: Digest, maxPacketSize: int, size: Sizes)
    returns (r: Result<Packet>)
    ensures r.Err? <==> Length(DigestHead(header), size) > maxPacketSize
    ensures r.Ok? ==> DigestHead(header) <= r.value
    ensures r.Ok? ==> LongestFit(DigestHead(header) + DigestRecords(digest), r.value, maxPacketSize, size)
  {
    ghost var all := DigestHead(header) + DigestRecords(digest);
    var buf := DigestHead(header);
    if Length(buf, size) > maxPacketSize {
      return Err;
    }
    var bufLen := |buf|;
    for i := 0 to |digest|
      invariant |buf| == 3 + i && 3 <= bufLen && buf[..3] == DigestHead(header)
      invariant Writing(all, buf, bufLen, false, maxPacketSize, size)
    {
      var fits;
      buf, bufLen, fits := Append(buf, bufLen, DigestRecord(digest[i]), maxPacketSize, size, all, false);
      if !fits {
        assert buf[..bufLen][..3] == DigestHead(header);
        return Ok(buf[..bufLen]);
      }
    }
    assert buf[..bufLen] == buf;
    return Ok(buf);
  }

  lemma {:induction false} RecordsSnoc(delta: Delta, de: DeltaEntry)
    ensures DeltaRecords(delta + [de]) == DeltaRecords(delta) + NodeRecords(de)
    decreases |delta|
  {
    if delta == [] {
      assert (delta + [de])[1..] == [];
      assert NodeRecords(de) + [] == NodeRecords(de);
    } else {
      assert (delta + [de])[1..] == delta[1..] + [de];
      RecordsSnoc(delta[1..], de);
    }
  }

  lemma {:induction false} RecordsPrefix(delta: Delta, i: nat)
    requires i <= |delta|
    ensures DeltaRecords(delta[..i]) <= DeltaRecords(delta)
    ensures i < |delta| ==> DeltaRecords(delta[..i]) + NodeRecords(delta[i]) <= DeltaRecords(delta)
    decreases |delta| - i
  {
    if i == |delta| {
      assert delta[..i] == delta;
    } else {
      RecordsPrefix(delta, i + 1);
      assert delta[..i + 1] == delta[..i] + [delta[i]];
      RecordsSnoc(delta[..i], delta[i]);
    }
  }

  /** Where the records of the i-th node are. */
  function Position(delta: Delta, i: nat): nat
    requires i <= |delta|
  {
    3 + |DeltaRecords(delta[..i])|
  }

  /** The records of the node are at position `p`. */
  ghost predicate NodeAt(all: Packet, p: nat, de: DeltaEntry) {
    && p + 1 + |de.entries| <= |all|
    && all[p] == DeltaHeaderRecord(DeltaHeader(de.id, de.addr, |de.entries|))
    && (forall j :: 0 <= j < |de.entries| ==> all[p + 1 + j] == EntryRecord(de.entries[j]))
  }

  lemma PositionFacts(header: DeltaHeader, delta: Delta, i: nat)
    requires i < |delta|
    ensures NodeAt(DeltaHead(header) + DeltaRecords(delta), Position(delta, i), delta[i])
    ensures Position(delta, i + 1) == Position(delta, i) + 1 + |delta[i].entries|
  {
    assert delta[..i + 1] == delta[..i] + [delta[i]];
    RecordsSnoc(delta[..i], delta[i]);
    RecordsPrefix(delta, i);
    var x, n := DeltaRecords(delta[..i]), NodeRecords(delta[i]);
    forall j | 0 <= j < |n| ensures DeltaRecords(delta)[|x| + j] == n[j] {
      assert (x + n)[|x| + j] == n[j];
    }
  }

  /** Encodes the header, then as many node headers and entries as fit. Running over the limit in the inner
      loop only ends that loop; the outer loop then runs over on the next header, if there is one. */
  method EncodeDelta(header: DeltaHeader, delta: Delta, maxPacketSize: int, size: Sizes)
    returns (r: Result<Packet>)
    ensures r.Err? <==> Length(DeltaHead(header), size) > maxPacketSize
    ensures r.Ok? ==> DeltaHead(header) <= r.value
    ensures r.Ok? ==> LongestFit(DeltaHead(header) + DeltaRecords(delta), r.value, maxPacketSize, size)
  {
    var buf := DeltaHead(header);
    if Length(buf, size) > maxPacketSize {
      return Err;
    }
    var packet := AppendDelta(header, buf, delta, maxPacketSize, size);
    return Ok(packet);
  }

  /** The outer loop, after the header. */
  method AppendDelta(header: DeltaHeader, start: Packet, delta: Delta, maxPacketSize: int, size: Sizes)
    returns (packet: Packet)
    requires start == DeltaHead(header) && Length(start, size) <= maxPacketSize
    ensures DeltaHead(header) <= packet
    ensures LongestFit(DeltaHead(header) + DeltaRecords(delta), packet, maxPacketSize, size)
  {
    ghost var all := DeltaHead(header) + DeltaRecords(delta);
    var buf, bufLen := start, |start|;
    ghost var over := false;
    for i := 0 to |delta|
      invariant 3 <= bufLen <= |buf| && buf[..3] == start
      invariant Writing(all, buf, bufLen, over, maxPacketSize, size)
      invariant !over ==> |buf| == Position(delta, i)
    {
      PositionFacts(header, delta, i);
      var fits;
      buf, bufLen, fits, over := AppendNode(buf, bufLen, delta[i], maxPacketSize, size, all, over);
      if !fits {
        break;
      }
    }
    assert delta[..|delta|] == delta;
    Encoded(all, buf, bufLen, over, maxPacketSize, size, start);
    return buf[..bufLen];
  }

  lemma Encoded(all: Packet, buf: Packet, bufLen: nat, over: bool, limit: int, size: Sizes, head: Packet)
    requires Writing(all, buf, bufLen, over, limit, size) && (!over ==> |buf| == |all|)
    requires |head| <= bufLen <= |buf| && buf[..|head|] == head
    ensures head <= buf[..bufLen] && LongestFit(all, buf[..bufLen], limit, size)
  {
    assert !over ==> buf[..bufLen] == buf == all;
  }

  /** One round of the outer loop: `fits` tells whether the node header did. */
  method AppendNode(start: Packet, startLen: nat, de: DeltaEntry, limit: int, size: Sizes, ghost all: Packet, ghost over: bool)
    returns (buf: Packet, bufLen: nat, fits: bool, ghost over': bool)
    requires Writing(all, start, startLen, over, limit, size) && startLen <= |start|
    requires !over ==> NodeAt(all, |start|, de)
    ensures Writing(all, buf, bufLen, over', limit, size)
    ensures startLen <= bufLen <= |buf| && buf[..startLen] == start[..startLen]
    ensures !over' ==> fits && !over && |buf| == |start| + 1 + |de.entries|
  {
    var nodeHeader := DeltaHeaderRecord(DeltaHeader(de.id, de.addr, |de.entries|));
    buf, bufLen, fits := Append(start, startLen, nodeHeader, limit, size, all, over);
    over' := !fits;
    if fits {
      ghost var written := buf;
      buf, bufLen, over' := AppendEntries(buf, bufLen, de.entries, limit, size, all);
      assert buf[..startLen] == written[..startLen];
    }
  }

  /** The inner loop: writes entries until one runs over the limit. */
  method AppendEntries(start: Packet, startLen: nat, es: seq<Entry>, limit: int, size: Sizes, ghost all: Packet)
    returns (buf: Packet, bufLen: nat, ghost over: bool)
    requires Writing(all, start, startLen, false, limit, size) && |start| + |es| <= |all|
    requires forall j :: 0 <= j < |es| ==> all[|start| + j] == EntryRecord(es[j])
    ensures Writing(all, buf, bufLen, over, limit, size)
    ensures startLen <= bufLen && buf[..startLen] == start && (!over ==> |buf| == |start| + |es|)
  {
    buf, bufLen, over := start, startLen, false;
    for j := 0 to |es|
      invariant !over && |buf| == |start| + j && startLen <= bufLen && buf[..startLen] == start
      invariant Writing(all, buf, bufLen, over, limit, size)
    {
      var fits;
      buf, bufLen, fits := Append(buf, bufLen, EntryRecord(es[j]), limit, size, all, over);
      over := !fits;
      if !fits {
        break;
      }
    }
  }

  // ---------- Decoding ----------

  /** Entries up to the announced number, or to the end of the packet. A negative number is never reached. */
  function TakeEntries(p: Packet, n: int): (r: Result<(seq<Entry>, Packet)>)
    ensures r.Ok? ==> |r.value.1| <= |p|
    decreases |p|
  {
    if n == 0 || p == [] then Ok(([], p))
    else if !p[0].EntryRecord? then Err
    else
      var rest := TakeEntries(p[1..], n - 1);
      if rest.Err? then Err else Ok(([p[0].entry] + rest.value.0, rest.value.1))
  }

  function ParseDelta(p: Packet): Result<Delta>
    decreases |p|
  {
    if p == [] then Ok([])
    else if !p[0].DeltaHeaderRecord? then Err
    else
      var h := p[0].header;
      var es := TakeEntries(p[1..], h.entries);
      if es.Err? then Err
      else
        var rest := ParseDelta(es.value.1);
        if rest.Err? then Err else Ok([DeltaEntry(h.nodeID, h.addr, es.value.0)] + rest.value)
  }

  function ParseDeltaPacket(p: Packet): Result<(DeltaHeader, Delta)> {
    if |p| < 3 || p[0] != Byte(MESSAGE_TYPE_DELTA) || p[1] != Byte(SUPPORTED_VERSION) || !p[2].DeltaHeaderRecord?
    then Err
    else
      var d := ParseDelta(p[3..]);
      if d.Err? then Err else Ok((p[2].header, d.value))
  }

  /** Reads node headers and their entries until the end of the packet. */
  method DecodeDelta(p: Packet) returns (r: Result<(DeltaHeader, Delta)>)
    ensures r == ParseDeltaPacket(p)
  {
    if |p| == 0 || p[0] != Byte(MESSAGE_TYPE_DELTA) {
      return Err;
    }
    if |p| == 1 || p[1] != Byte(SUPPORTED_VERSION) {
      return Err;
    }
    if |p| == 2 || !p[2].DeltaHeaderRecord? {
      return Err;
    }
    var delta: Delta := [];
    var rest := p[3..];
    PrependNone(ParseDelta(rest));
    while rest != []
      invariant ParseDelta(p[3..]) == Prepend(delta, ParseDelta(rest))
      decreases |rest|
    {
      if !rest[0].DeltaHeaderRecord? {
        return Err;
      }
      var h := rest[0].header;
      ghost var before := rest;
      var entries := DecodeEntries(rest[1..], h.entries);
      if entries.Err? {
        return Err;
      }
      rest := entries.value.1;
      PrependOne(delta, DeltaEntry(h.nodeID, h.addr, entries.value.0), ParseDelta(rest));
      delta := delta + [DeltaEntry(h.nodeID, h.addr, entries.value.0)];
    }
    assert delta + [] == delta;
    return Ok((p[2].header, delta));
  }

  /** Reads entries until the announced number is reached or the packet ends. */
  method DecodeEntries(p: Packet, n: int) returns (r: Result<(seq<Entry>, Packet)>)
    ensures r == TakeEntries(p, n)
  {
    var entries: seq<Entry> := [];
    var rest := p;
    var i := 0;
    PrependNoEntries(TakeEntries(p, n));
    while i != n && rest != []
      invariant TakeEntries(p, n) == PrependEntries(entries, TakeEntries(rest, n - i))
      decreases |rest|
    {
      if !rest[0].EntryRecord? {
        return Err;
      }
      PrependOneEntry(entries, rest[0].entry, TakeEntries(rest[1..], n - i - 1));
      entries := entries + [rest[0].entry];
      rest := rest[1..];
      i := i + 1;
    }
    assert entries + [] == entries;
    return Ok((entries, rest));
  }

  function Prepend(a: Delta, r: Result<Delta>): Result<Delta> {
    if r.Err? then Err else Ok(a + r.value)
  }

  function PrependEntries(a: seq<Entry>, r: Result<(seq<Entry>, Packet)>): Result<(seq<Entry>, Packet)> {
    if r.Err? then Err else Ok((a + r.value.0, r.value.1))
  }

  lemma PrependNone(r: Result<Delta>)
    ensures Prepend([], r) == r
  {
    if r.Ok? { assert [] + r.value == r.value; }
  }

  lemma PrependNoEntries(r: Result<(seq<Entry>, Packet)>)
    ensures PrependEntries([], r) == r
  {
    if r.Ok? { assert [] + r.value.0 == r.value.0; }
  }

  lemma PrependOne(a: Delta, de: DeltaEntry, r: Result<Delta>)
    ensures Prepend(a, Prepend([de], r)) == Prepend(a + [de], r)
  {
    if r.Ok? { assert a + ([de] + r.value) == a + [de] + r.value; }
  }

  lemma PrependOneEntry(a: seq<Entry>, e: Entry, r: Result<(seq<Entry>, Packet)>)
    ensures PrependEntries(a, PrependEntries([e], r)) == PrependEntries(a + [e], r)
  {
    if r.Ok? { assert a + ([e] + r.value.0) == a + [e] + r.value.0; }
  }

  /** Reads digest entries until the end of the packet. */
  method DecodeDigest(p: Packet) returns (r: Result<(DigestHeader, Digest)>)
    ensures r.Ok? <==> (exists header, digest :: p == DigestHead(header) + DigestRecords(digest))
    ensures r.Ok? ==> p == DigestHead(r.value.0) + DigestRecords(r.value.1)
  {
    if |p| == 0 || p[0] != Byte(MESSAGE_TYPE_DIGEST) {
      return Err;
    }
    if |p| == 1 || p[1] != Byte(SUPPORTED_VERSION) {
      return Err;
    }
    if |p| == 2 || !p[2].DigestHeaderRecord? {
      return Err;
    }
    var digest: Digest := [];
    for i := 3 to |p|
      invariant |digest| == i - 3
      invariant forall j :: 3 <= j < i ==> p[j] == DigestRecord(digest[j - 3])
    {
      if !p[i].DigestRecord? {
        return Err;
      }
      digest := digest + [p[i].digestEntry];
    }
    assert p == DigestHead(p[2].digestHeader) + DigestRecords(digest);
    return Ok((p[2].digestHeader, digest));
  }

  // ---------- Round trips ----------

  /** What is left of a delta when only `n` of its records are sent. */
  function Cut(delta: Delta, n: nat): Delta {
    if n == 0 || delta == [] then []
    else
      var de := delta[0];
      if n > |de.entries| then [de] + Cut(delta[1..], n - 1 - |de.entries|)
      else [de.(entries := de.entries[..n - 1])]
  }

  /** Whole node entries, then at most one with a prefix of its entries. */
  ghost predicate Truncates(delta: Delta, d: Delta) {
    && |d| <= |delta|
    && (forall i :: 0 <= i < |d| - 1 ==> d[i] == delta[i])
    && (d != [] ==> var last := |d| - 1;
          d[last].id == delta[last].id && d[last].addr == delta[last].addr && d[last].entries <= delta[last].entries)
  }

  lemma {:induction false} CutTruncates(delta: Delta, n: nat)
    ensures Truncates(delta, Cut(delta, n))
    decreases |delta|
  {
    if n != 0 && delta != [] && n > |delta[0].entries| {
      CutTruncates(delta[1..], n - 1 - |delta[0].entries|);
    }
  }

  lemma {:induction false} TakePrefix(es: seq<Entry>, m: nat, n: int, rest: Packet)
    requires m <= |es| && (if m == |es| then n == |es| || rest == [] else rest == [] && n >= |es|)
    requires n >= m
    ensures TakeEntries(EntryRecords(es)[..m] + rest, n) == Ok((es[..m], rest))
    decreases m
  {
    var p := EntryRecords(es)[..m] + rest;
    if m == 0 {
      assert p == rest;
    } else {
      assert p[0] == EntryRecord(es[0]);
      assert p[1..] == EntryRecords(es[1..])[..m - 1] + rest;
      TakePrefix(es[1..], m - 1, n - 1, rest);
      assert [es[0]] + es[1..][..m - 1] == es[..m];
    }
  }

  /** Decoding any prefix of the records of a delta gives the delta cut to that many records. */
  lemma {:induction false} ParseCut(delta: Delta, n: nat)
    requires n <= |DeltaRecords(delta)|
    ensures ParseDelta(DeltaRecords(delta)[..n]) == Ok(Cut(delta, n))
    decreases |delta|
  {
    var p := DeltaRecords(delta)[..n];
    if n > 0 && delta != [] {
      var de, k := delta[0], |delta[0].entries|;
      assert p[0] == DeltaHeaderRecord(DeltaHeader(de.id, de.addr, k));
      if n > k {
        var tail := DeltaRecords(delta[1..])[..n - 1 - k];
        assert p[1..] == EntryRecords(de.entries)[..k] + tail;
        TakePrefix(de.entries, k, k, tail);
        assert de.entries[..k] == de.entries;
        ParseCut(delta[1..], n - 1 - k);
      } else {
        assert p[1..] == EntryRecords(de.entries)[..n - 1] + [];
        TakePrefix(de.entries, n - 1, k, []);
        assert [de.(entries := de.entries[..n - 1])] + [] == Cut(delta, n);
      }
    }
  }

  /** A prefix of a delta packet decodes to the same header and a truncation of the delta; it holds the
      first entry as soon as it is long enough to. */
  lemma DeltaRoundTrip(header: DeltaHeader, delta: Delta, p: Packet)
    requires DeltaHead(header) <= p <= DeltaHead(header) + DeltaRecords(delta)
    ensures var r := ParseDeltaPacket(p);
      && r.Ok? && r.value.0 == header && Truncates(delta, r.value.1)
      && (|p| >= 5 && delta != [] && delta[0].entries != [] ==> r.value.1 != [] && r.value.1[0].entries != [])
  {
    var n := |p| - 3;
    assert p[3..] == DeltaRecords(delta)[..n];
    assert p[2] == DeltaHeaderRecord(header);
    ParseCut(delta, n);
    CutTruncates(delta, n);
  }

  /** Sends a delta through a packet: what comes out is a truncation of what went in, and the first entry
      gets through whenever the packet has room for it. */
  method SendDelta(header: DeltaHeader, delta: Delta, maxPacketSize: int, size: Sizes)
    returns (r: Result<(DeltaHeader, Delta)>)
    ensures r.Err? <==> Length(DeltaHead(header), size) > maxPacketSize
    ensures r.Ok? ==> r.value.0 == header && Truncates(delta, r.value.1)
    ensures r.Ok? && HasRoom(header, delta, maxPacketSize, size) ==> r.value.1 != [] && r.value.1[0].entries != []
  {
    var p := EncodeDelta(header, delta, maxPacketSize, size);
    if p.Err? {
      return Err;
    }
    DeltaRoundTrip(header, delta, p.value);
    if HasRoom(header, delta, maxPacketSize, size) {
      RoomIsUsed(header, delta, p.value, maxPacketSize, size);
    }
    r := DecodeDelta(p.value);
  }

  /** The packet has room for the header, the first node and its first entry. */
  ghost predicate HasRoom(header: DeltaHeader, delta: Delta, limit: int, size: Sizes) {
    && delta != [] && delta[0].entries != []
    && Length(DeltaHead(header) + NodeRecords(delta[0])[..2], size) <= limit
  }

  lemma RoomIsUsed(header: DeltaHeader, delta: Delta, p: Packet, limit: int, size: Sizes)
    requires HasRoom(header, delta, limit, size) && |p| >= 3
    requires LongestFit(DeltaHead(header) + DeltaRecords(delta), p, limit, size)
    ensures |p| >= 5
  {
    var all := DeltaHead(header) + DeltaRecords(delta);
    assert all[..5] == DeltaHead(header) + NodeRecords(delta[0])[..2];
    if |p| < 5 { LengthGrows(all, |p| + 1, 5, size); }
  }

  /** A digest that goes through a packet comes out as a prefix of itself. */
  method SendDigest(header: DigestHeader, digest: Digest, maxPacketSize: int, size: Sizes)
    returns (r: Result<(DigestHeader, Digest)>)
    ensures r.Err? <==> Length(DigestHead(header), size) > maxPacketSize
    ensures r.Ok? ==> r.value.0 == header && r.value.1 <= digest
  {
    var p := EncodeDigest(header, digest, maxPacketSize, size);
    if p.Err? {
      return Err;
    }
    ghost var n := |p.value| - 3;
    assert p.value == DigestHead(header) + DigestRecords(digest[..n]);
    r := DecodeDigest(p.value);
    assert p.value[2] == DigestHeaderRecord(header);
    forall i | 0 <= i < n ensures r.value.1[i] == digest[i] {
      assert p.value[3 + i] == DigestRecord(digest[i]);
    }
  }
}
