/**
 Sections on the wire.  In ISO/IEC 13818-1 (section 2.4.4) the sections of a PID
 lie back to back: when one begins inside a packet, the pointer field leads to
 its first byte, and the bytes it leads over end the section before.  tsPayload
 drops those bytes, so a section is read exactly when it can spare them.
 */
module TransportStreamCapture {
  import opened Prelude
  import opened TransportStream
  import opened TransportStreamEncoding

  // ----- what a PID carries, and what the reader keeps of it -----

  /** A byte on the wire, and whether the reader keeps it: not if it lies before a pointer target. */
  datatype Mark = Mark(byte: Byte, kept: bool)

  function Skipped(p: Packet): seq<Byte> {
    if p.unitStart.None? then [] else p.unitStart.value
  }

  function Marked(bytes: seq<Byte>, kept: bool): (ms: seq<Mark>)
    ensures |ms| == |bytes| && forall i | 0 <= i < |ms| :: ms[i] == Mark(bytes[i], kept)
  {
    seq(|bytes|, i requires 0 <= i < |bytes| => Mark(bytes[i], kept))
  }

  /** Everything the packets of a PID carry: the bytes before a pointer target, then the payload. */
  function Wire(ps: seq<Packet>, pid: nat): seq<Mark> {
    if ps == [] then []
    else (if ps[0].pid == pid then Marked(Skipped(ps[0]), false) + Marked(ps[0].payload, true) else []) + Wire(ps[1..], pid)
  }

  function KeptBytes(ms: seq<Mark>): seq<Byte> {
    if ms == [] then [] else (if ms[0].kept then [ms[0].byte] else []) + KeptBytes(ms[1..])
  }

  lemma {:induction false} KeptBytesOfConcat(a: seq<Mark>, b: seq<Mark>)
    ensures KeptBytes(a + b) == KeptBytes(a) + KeptBytes(b)
  {
    if a == [] {
      assert a + b == b;
    } else {
      var head := if a[0].kept then [a[0].byte] else [];
      assert (a + b)[1..] == a[1..] + b;
      KeptBytesOfConcat(a[1..], b);
      assert KeptBytes(a) == head + KeptBytes(a[1..]);
      assert KeptBytes(a + b) == head + KeptBytes(a[1..] + b);
      hide KeptBytes;
      assert head + (KeptBytes(a[1..]) + KeptBytes(b)) == (head + KeptBytes(a[1..])) + KeptBytes(b);
    }
  }

  lemma {:induction false} KeptBytesOfMarked(ms: seq<Mark>, bytes: seq<Byte>, kept: bool)
    requires |ms| == |bytes| && forall i | 0 <= i < |ms| :: ms[i].kept == kept && (kept ==> ms[i].byte == bytes[i])
    ensures KeptBytes(ms) == if kept then bytes else []
  {
    if ms != [] {
      KeptBytesOfMarked(ms[1..], bytes[1..], kept);
    }
  }

  lemma OnePacketKept(p: Packet, rest: seq<Mark>)
    ensures KeptBytes((Marked(Skipped(p), false) + Marked(p.payload, true)) + rest) == p.payload + KeptBytes(rest)
  {
    var skipped, payload := Marked(Skipped(p), false), Marked(p.payload, true);
    KeptBytesOfMarked(skipped, Skipped(p), false);
    KeptBytesOfMarked(payload, p.payload, true);
    hide KeptBytes, Marked, Skipped;
    KeptBytesOfConcat(skipped, payload);
    KeptBytesOfConcat(skipped + payload, rest);
  }

  /** What the reader keeps of the wire is what PidPayload says. */
  lemma {:induction false} PidPayloadIsKept(ps: seq<Packet>, pid: nat)
    ensures PidPayload(ps, pid) == KeptBytes(Wire(ps, pid))
  {
    if ps != [] {
      var p, rest := ps[0], Wire(ps[1..], pid);
      PidPayloadIsKept(ps[1..], pid);
      if p.pid == pid {
        assert Wire(ps, pid) == (Marked(Skipped(p), false) + Marked(p.payload, true)) + rest;
        assert PidPayload(ps, pid) == p.payload + PidPayload(ps[1..], pid);
        hide Wire, PidPayload;
        OnePacketKept(p, rest);
      } else {
        assert Wire(ps, pid) == rest;
      }
    }
  }

  // ----- when a section is read -----

  /**
   A section lies at position at of the wire, and its first byte is what the
   first kept byte would be: nothing but skipped bytes comes before.
   */
  predicate Placed(wire: seq<Mark>, section: seq<Byte>, at: nat) {
    && at + |section| <= |wire|
    && (forall i | 0 <= i < at :: !wire[i].kept)
    && var here := wire[at..at + |section|]; forall i | 0 <= i < |section| :: here[i].byte == section[i]
  }

  /** No byte of it lies before a pointer target. */
  predicate Intact(wire: seq<Mark>, section: seq<Byte>, at: nat) {
    && at + |section| <= |wire|
    && (forall i | 0 <= i < at :: !wire[i].kept)
    && wire[at..at + |section|] == Marked(section, true)
  }

  function LeadingKept(ms: seq<Mark>): (n: nat)
    ensures n <= |ms| && (forall i | 0 <= i < n :: ms[i].kept) && (n < |ms| ==> !ms[n].kept)
  {
    if ms == [] || !ms[0].kept then 0 else 1 + LeadingKept(ms[1..])
  }

  /** How many bytes of a placed section come before the first one that the reader drops. */
  function BytesBeforeLoss(wire: seq<Mark>, section: seq<Byte>, at: nat): (n: nat)
    requires Placed(wire, section, at)
    ensures n <= |section| && (n == |section| <==> Intact(wire, section, at))
    ensures forall i | 0 <= i < n :: wire[at..at + |section|][i] == Mark(section[i], true)
  {
    var here := wire[at..at + |section|];
    var n := LeadingKept(here);
    assert n == |section| ==> here == Marked(section, true);
    assert here == Marked(section, true) ==> n == |section|;
    n
  }

  /**
   Reassembly inverts packetization: the section comes back exactly when the
   bytes the reader keeps begin with it (nine bytes at the least, so a shorter
   section has to wait for more), and nothing comes back while only a proper
   prefix of it has arrived.
   */
  lemma ReassemblyInvertsPacketization(ps: seq<Packet>, pid: nat, tableID: Byte, flags: nat, body: seq<Byte>)
    requires AllEncodable(ps) && flags < 16 && |body| < 4096
    ensures
      var section, got := Section(tableID, flags, body), FrontSection(PidBytes(EncodeAll(ps), pid), tableID);
      && (got == section <==> section <= PidPayload(ps, pid) && |PidPayload(ps, pid)| >= 9)
      && (PidPayload(ps, pid) < section ==> got == [])
  {
    PidBytesOfEncoded(ps, pid);
    hide PidBytes, PidPayload, EncodeAll, AllEncodable, FrontSection, Section;
    FrontOfBuffer(PidPayload(ps, pid), tableID, flags, body);
  }

  /** The front section of any bytes, against a given section. */
  lemma FrontOfBuffer(buf: seq<Byte>, tableID: Byte, flags: nat, body: seq<Byte>)
    requires flags < 16 && |body| < 4096
    ensures
      var section := Section(tableID, flags, body);
      && (FrontSection(buf, tableID) == section <==> section <= buf && |buf| >= 9)
      && (buf < section ==> FrontSection(buf, tableID) == [])
  {
    var section := Section(tableID, flags, body);
    assert SectionLength(section) == |body| && section[0] == tableID;
    FrontIsPrefix(buf, tableID);
    hide Section, FrontSection, SectionLength;
    if section <= buf && |buf| >= 9 {
      FrontOfComplete(buf, section, tableID);
    } else if buf < section {
      FrontOfPart(buf, section, tableID);
    }
  }

  lemma FrontIsPrefix(buf: seq<Byte>, tableID: Byte)
    ensures FrontSection(buf, tableID) <= buf
    ensures FrontSection(buf, tableID) != [] ==> |buf| >= 9
  {
  }

  lemma FrontOfComplete(buf: seq<Byte>, section: seq<Byte>, tableID: Byte)
    requires section <= buf && |buf| >= 9 && |section| >= 3 && section[0] == tableID && |section| == 3 + SectionLength(section)
    ensures FrontSection(buf, tableID) == section
  {
    SameHeader(buf, section);
    hide SectionLength;
    assert buf[..|section|] == section;
  }

  lemma FrontOfPart(buf: seq<Byte>, section: seq<Byte>, tableID: Byte)
    requires buf < section && |section| >= 3 && |section| == 3 + SectionLength(section)
    ensures FrontSection(buf, tableID) == []
  {
    if |buf| >= 3 {
      SameHeader(buf, section);
    }
    hide SectionLength;
  }

  lemma SameHeader(buf: seq<Byte>, section: seq<Byte>)
    requires |buf| >= 3 && |section| >= 3 && buf[..3] == section[..3]
    ensures buf[0] == section[0] && SectionLength(buf) == SectionLength(section)
  {
    assert buf[..3][0] == section[..3][0] && buf[..3][1] == section[..3][1] && buf[..3][2] == section[..3][2];
  }

  /** The kept bytes of a wire around a loss. */
  lemma KeptAroundLoss(wire: seq<Mark>, section: seq<Byte>, at: nat)
    requires Placed(wire, section, at)
    ensures
      var n := BytesBeforeLoss(wire, section, at);
      KeptBytes(wire) == section[..n] + KeptBytes(wire[at + n..])
  {
    var n := BytesBeforeLoss(wire, section, at);
    var before, kept, rest := wire[..at], wire[at..at + n], wire[at + n..];
    assert kept == Marked(section[..n], true) by {
      SliceOfSlice(wire, at, at + |section|, 0, n);
    }
    assert wire == before + kept + rest;
    hide BytesBeforeLoss, Placed, KeptBytes;
    KeptBytesOfConcat(before + kept, rest);
    KeptBytesOfConcat(before, kept);
    KeptBytesOfMarked(kept, section[..n], true);
    NothingKept(wire, section, at);
  }

  lemma NothingKept(wire: seq<Mark>, section: seq<Byte>, at: nat)
    requires Placed(wire, section, at)
    ensures KeptBytes(wire[..at]) == []
  {
    KeptBytesOfMarked(wire[..at], seq(at, _ => 0), false);
  }

  /**
   The exact condition.  A section that no pointer field cuts is read; one that
   loses bytes is read if and only if what the reader keeps after the loss
   happens to spell the rest of it.
   */
  lemma SectionReadIff(ps: seq<Packet>, pid: nat, tableID: Byte, flags: nat, body: seq<Byte>, at: nat)
    requires AllEncodable(ps) && flags < 16 && 6 <= |body| < 4096
    requires Placed(Wire(ps, pid), Section(tableID, flags, body), at)
    ensures
      var wire, section, got := Wire(ps, pid), Section(tableID, flags, body), FrontSection(PidBytes(EncodeAll(ps), pid), tableID);
      var n := BytesBeforeLoss(wire, section, at);
      && (got == section <==> section[n..] <= KeptBytes(wire[at + n..]))
      && (Intact(wire, section, at) ==> got == section)
  {
    var wire, section := Wire(ps, pid), Section(tableID, flags, body);
    ReassemblyInvertsPacketization(ps, pid, tableID, flags, body);
    PidPayloadIsKept(ps, pid);
    KeptAroundLoss(wire, section, at);
    hide Section, BytesBeforeLoss, KeptBytes, PidBytes, FrontSection, PidPayload, Wire;
    var n := BytesBeforeLoss(wire, section, at);
    PrefixBehind(section, n, KeptBytes(wire[at + n..]));
  }

  /**
   What the reader returns instead, whenever a section loses bytes behind its
   header, in any packets and with any adaptation fields: the bytes kept after
   the loss move up into the place of those lost, and where there are too few of
   them nothing comes back.
   */
  lemma LossIsPatched(ps: seq<Packet>, pid: nat, tableID: Byte, flags: nat, body: seq<Byte>, at: nat)
    requires AllEncodable(ps) && flags < 16 && 6 <= |body| < 4096
    requires Placed(Wire(ps, pid), Section(tableID, flags, body), at)
    requires BytesBeforeLoss(Wire(ps, pid), Section(tableID, flags, body), at) >= 3
    ensures
      var wire, section := Wire(ps, pid), Section(tableID, flags, body);
      var n := BytesBeforeLoss(wire, section, at);
      var later := KeptBytes(wire[at + n..]);
      FrontSection(PidBytes(EncodeAll(ps), pid), tableID) ==
      if |section| - n <= |later| then section[..n] + later[..|section| - n] else []
  {
    var wire, section := Wire(ps, pid), Section(tableID, flags, body);
    PidBytesOfEncoded(ps, pid);
    PidPayloadIsKept(ps, pid);
    KeptAroundLoss(wire, section, at);
    var n := BytesBeforeLoss(wire, section, at);
    PatchedFront(section, n, KeptBytes(wire[at + n..]), tableID, flags, body);
  }

  lemma PatchedFront(s: seq<Byte>, n: nat, later: seq<Byte>, tableID: Byte, flags: nat, body: seq<Byte>)
    requires flags < 16 && 6 <= |body| < 4096 && s == Section(tableID, flags, body) && 3 <= n <= |s|
    ensures FrontSection(s[..n] + later, tableID) == if |s| - n <= |later| then s[..n] + later[..|s| - n] else []
  {
    var buf := s[..n] + later;
    assert buf[0] == s[0] && buf[1] == s[1] && buf[2] == s[2];
    assert SectionLength(buf) == |body|;
    if |s| - n <= |later| {
      assert buf[..|s|] == s[..n] + later[..|s| - n];
    }
  }

  lemma PrefixBehind(s: seq<Byte>, n: nat, rest: seq<Byte>)
    requires n <= |s|
    ensures s <= s[..n] + rest <==> s[n..] <= rest
  {
    assert s == s[..n] + s[n..];
    if s <= s[..n] + rest {
      assert (s[..n] + rest)[n..|s|] == rest[..|s| - n];
    }
  }

  lemma IntactIsKept(ps: seq<Packet>, pid: nat, section: seq<Byte>, at: nat)
    requires Intact(Wire(ps, pid), section, at)
    ensures section <= PidPayload(ps, pid)
  {
    PidPayloadIsKept(ps, pid);
    KeptAroundLoss(Wire(ps, pid), section, at);
  }

  /** Two packets in a row: the first starts a section, the second ends it before its pointer target. */
  function CutSection(pid: nat, front: seq<Byte>, tail: seq<Byte>, next: seq<Byte>): seq<Packet> {
    [StartPacket(pid, front), Packet(pid, false, false, 0, 0, None, Some(tail), next)]
  }

  lemma CutSectionWire(pid: nat, front: seq<Byte>, tail: seq<Byte>, next: seq<Byte>)
    ensures Wire(CutSection(pid, front, tail, next), pid) == Marked(front, true) + Marked(tail, false) + Marked(next, true)
    ensures PidPayload(CutSection(pid, front, tail, next), pid) == front + next
  {
    var ps := CutSection(pid, front, tail, next);
    assert ps[1..] == [ps[1]] && ps[1..][1..] == [];
    assert Wire([ps[1]], pid) == Marked(tail, false) + Marked(next, true) + Wire([], pid);
    assert Wire(ps, pid) == Marked([], false) + Marked(front, true) + Wire([ps[1]], pid);
    assert PidPayload([ps[1]], pid) == next + PidPayload([], pid);
  }

  /**
   The failing family in two plain packets: the end of a section lies before a
   pointer target, as it does wherever the next section begins in the packet in
   which one ends.  The wire spells s and then next; the reader puts next's first bytes in place of
   s's last ones, or returns nothing when there are not enough of them.
   */
  lemma TailBeforePointerIsLost(pid: nat, flags: nat, body: seq<Byte>, next: seq<Byte>)
    requires pid < 8192 && flags < 16 && 180 < |body| < 363 && |next| == 363 - |body|
    ensures
      var s := Section(0x02, flags, body);
      var ps, cut := CutSection(pid, s[..183], s[183..], next), |s| - 183;
      && AllEncodable(ps)
      && (forall i | 0 <= i < |s + next| :: i < |Wire(ps, pid)| && Wire(ps, pid)[i].byte == (s + next)[i])
      && FrontSection(PidBytes(EncodeAll(ps), pid), 0x02) == if cut <= |next| then s[..183] + next[..cut] else []
  {
    var s := Section(0x02, flags, body);
    var ps, cut := CutSection(pid, s[..183], s[183..], next), |s| - 183;
    CutSectionWire(pid, s[..183], s[183..], next);
    PidBytesOfEncoded(ps, pid);
    hide Wire, PidPayload, PidBytes, EncodeAll;
    PatchedFront(s, 183, next, 0x02, flags, body);
  }

  /** A capture that begins in the middle of a section never finds the sections behind it. */
  lemma MidSectionStartIsNeverLeft(ps: seq<Packet>, pid: nat, tableID: Byte)
    requires AllEncodable(ps) && PidPayload(ps, pid) != [] && PidPayload(ps, pid)[0] != tableID
    ensures FrontSection(PidBytes(EncodeAll(ps), pid), tableID) == []
  {
    PidBytesOfEncoded(ps, pid);
  }

  // ----- a plain packetization -----

  /** A packet that starts a unit: pointer field 0, then 183 payload bytes. */
  function StartPacket(pid: nat, payload: seq<Byte>): Packet {
    Packet(pid, false, false, 0, 0, None, Some([]), payload)
  }

  function NextPacket(pid: nat, payload: seq<Byte>): Packet {
    Packet(pid, false, false, 0, 0, None, None, payload)
  }

  function Stuffed(bytes: seq<Byte>, size: nat): (r: seq<Byte>)
    requires |bytes| <= size
    ensures |r| == size && bytes <= r
  {
    bytes + seq(size - |bytes|, _ => 0xFF)
  }

  function CutRest(pid: nat, bytes: seq<Byte>): seq<Packet>
    decreases |bytes|
  {
    if bytes == [] then []
    else if |bytes| <= 184 then [NextPacket(pid, Stuffed(bytes, 184))]
    else [NextPacket(pid, bytes[..184])] + CutRest(pid, bytes[184..])
  }

  /** The plain packetization of a section: one unit start, then full packets, 0xFF stuffing at the end. */
  function Packetize(pid: nat, section: seq<Byte>): seq<Packet> {
    if |section| <= 183 then [StartPacket(pid, Stuffed(section, 183))]
    else [StartPacket(pid, section[..183])] + CutRest(pid, section[183..])
  }

  /** What is kept in front of an intact section is intact with it. */
  lemma IntactBehind(a: seq<Byte>, wire: seq<Mark>, b: seq<Byte>)
    requires Intact(wire, b, 0)
    ensures Intact(Marked(a, true) + wire, a + b, 0)
  {
    var all := Marked(a, true) + wire;
    assert wire[..|b|] == Marked(b, true);
    assert all[..|a| + |b|] == Marked(a, true) + wire[..|b|];
  }

  lemma WireOfFirst(p: Packet, ps: seq<Packet>)
    requires Skipped(p) == []
    ensures Wire([p] + ps, p.pid) == Marked(p.payload, true) + Wire(ps, p.pid)
  {
    assert ([p] + ps)[1..] == ps;
  }

  lemma IntactAlone(bytes: seq<Byte>, more: seq<Byte>, pid: nat)
    requires bytes <= more
    ensures Intact(Marked(more, true) + Wire([], pid), bytes, 0)
  {
  }

  lemma {:induction false} CutRestCarries(pid: nat, bytes: seq<Byte>)
    requires pid < 8192
    ensures AllEncodable(CutRest(pid, bytes))
    ensures Intact(Wire(CutRest(pid, bytes), pid), bytes, 0)
    decreases |bytes|
  {
    if |bytes| > 184 {
      CutRestCarries(pid, bytes[184..]);
      var p, rest := NextPacket(pid, bytes[..184]), CutRest(pid, bytes[184..]);
      assert CutRest(pid, bytes) == [p] + rest;
      hide Wire, Intact;
      WireOfFirst(p, rest);
      IntactBehind(bytes[..184], Wire(rest, pid), bytes[184..]);
      assert bytes == bytes[..184] + bytes[184..];
    } else if bytes != [] {
      hide Wire, Intact;
      WireOfFirst(NextPacket(pid, Stuffed(bytes, 184)), []);
      IntactAlone(bytes, Stuffed(bytes, 184), pid);
    }
  }

  /** Packets of other PIDs do not matter, only the PID's own, in their order. */
  function OnlyPid(ps: seq<Packet>, pid: nat): seq<Packet> {
    if ps == [] then [] else (if ps[0].pid == pid then [ps[0]] else []) + OnlyPid(ps[1..], pid)
  }

  lemma {:induction false} WireOfOnlyPid(ps: seq<Packet>, pid: nat)
    ensures Wire(OnlyPid(ps, pid), pid) == Wire(ps, pid)
  {
    if ps != [] {
      WireOfOnlyPid(ps[1..], pid);
      if ps[0].pid == pid {
        assert OnlyPid(ps, pid)[1..] == OnlyPid(ps[1..], pid);
      } else {
        assert OnlyPid(ps, pid) == OnlyPid(ps[1..], pid);
      }
    }
  }

  /** However its packets are interleaved with others, a plainly packetized section lies intact on the wire. */
  lemma PacketizedSectionArrives(ps: seq<Packet>, pid: nat, section: seq<Byte>)
    requires pid < 8192 && OnlyPid(ps, pid) == Packetize(pid, section)
    ensures Intact(Wire(ps, pid), section, 0)
  {
    hide Wire, Intact;
    WireOfOnlyPid(ps, pid);
    if |section| > 183 {
      var p, rest := StartPacket(pid, section[..183]), CutRest(pid, section[183..]);
      CutRestCarries(pid, section[183..]);
      WireOfFirst(p, rest);
      IntactBehind(section[..183], Wire(rest, pid), section[183..]);
      assert section == section[..183] + section[183..];
    } else {
      assert Packetize(pid, section) == [StartPacket(pid, Stuffed(section, 183))] + [];
      WireOfFirst(StartPacket(pid, Stuffed(section, 183)), []);
      IntactAlone(section, Stuffed(section, 183), pid);
    }
  }

  /** A plainly packetized section, interleaved with any packets of other PIDs, is read back. */
  lemma PacketizedSectionIsRead(ps: seq<Packet>, pid: nat, tableID: Byte, flags: nat, body: seq<Byte>)
    requires AllEncodable(ps) && pid < 8192 && flags < 16 && 6 <= |body| < 4096
    requires OnlyPid(ps, pid) == Packetize(pid, Section(tableID, flags, body))
    ensures FrontSection(PidBytes(EncodeAll(ps), pid), tableID) == Section(tableID, flags, body)
  {
    hide Section, Wire, PidBytes, FrontSection, PidPayload;
    PacketizedSectionArrives(ps, pid, Section(tableID, flags, body));
    IntactIsKept(ps, pid, Section(tableID, flags, body), 0);
    ReassemblyInvertsPacketization(ps, pid, tableID, flags, body);
  }

  /** tsPMTPID on an encoded PAT: the first non-zero program's PID, or -1 when there is none. */
  lemma PmtPidOfEncoded(ps: seq<Packet>, pat: Pat, flags: nat)
    requires AllEncodable(ps) && pat.Valid() && flags < 16
    requires Section(0x00, flags, pat.Body()) <= PidPayload(ps, 0)
    ensures PmtPid(EncodeAll(ps)) == (match FirstProgram(pat.programs) case Some(pid) => pid case None => -1)
  {
    ReassemblyInvertsPacketization(ps, 0, 0x00, flags, pat.Body());
    PatProgramPidOfEncoded(pat, flags);
  }

  // ----- end to end -----

  /** A capture: framed packets, and the tables that were broadcast. */
  datatype Capture = Capture(frames: seq<Framed>, gap: seq<Byte>, truncated: seq<Byte>, packets: seq<Packet>,
                             pat: Pat, patFlags: nat, pmt: Pmt, pmtFlags: nat)
  {
    function Bytes(): seq<Byte> {
      Frame(frames) + (gap + truncated)
    }

    predicate Valid() {
      && AllValid(frames) && IsTail(gap, truncated)
      && AllEncodable(packets) && Packets(frames) == EncodeAll(packets)
      && pat.Valid() && patFlags < 16 && pmt.Valid() && pmtFlags < 16 && FirstProgram(pat.programs).Some?
    }

    function PatSection(): seq<Byte>
      requires Valid()
    {
      Section(0x00, patFlags, pat.Body())
    }

    function PmtSection(): seq<Byte>
      requires Valid()
    {
      Section(0x02, pmtFlags, pmt.Body())
    }

    function PmtPid(): nat
      requires Valid()
    {
      FirstProgram(pat.programs).value
    }

    /** Both tables are read: the kept bytes of PID 0 begin with the PAT, those of the PMT's PID with the PMT. */
    predicate TablesRead()
      requires Valid()
    {
      PatSection() <= PidPayload(packets, 0) && PmtSection() <= PidPayload(packets, PmtPid())
    }
  }

  /**
   Both tables come back byte for byte exactly when they are read in the sense
   of TablesRead; when they lie on the wire uncut by pointer fields, they do.
   */
  lemma TablesReadIff(c: Capture, patAt: nat, pmtAt: nat)
    requires c.Valid()
    ensures
      var packets := EncodeAll(c.packets);
      c.TablesRead() <==>
        FrontSection(PidBytes(packets, 0), 0x00) == c.PatSection() &&
        FrontSection(PidBytes(packets, c.PmtPid()), 0x02) == c.PmtSection()
    ensures Intact(Wire(c.packets, 0), c.PatSection(), patAt) && Intact(Wire(c.packets, c.PmtPid()), c.PmtSection(), pmtAt) ==> c.TablesRead()
  {
    ReassemblyInvertsPacketization(c.packets, 0, 0x00, c.patFlags, c.pat.Body());
    ReassemblyInvertsPacketization(c.packets, c.PmtPid(), 0x02, c.pmtFlags, c.pmt.Body());
    hide Section, FrontSection, PidBytes, PidPayload, Wire;
    if Intact(Wire(c.packets, 0), c.PatSection(), patAt) && Intact(Wire(c.packets, c.PmtPid()), c.PmtSection(), pmtAt) {
      IntactIsKept(c.packets, 0, c.PatSection(), patAt);
      IntactIsKept(c.packets, c.PmtPid(), c.PmtSection(), pmtAt);
    }
  }

  /** tsAudioLangs on a capture whose tables are read: the declared languages, plus whatever short descriptors stray onto. */
  lemma AudioLangsOfCapture(c: Capture, norm: seq<Byte> -> string)
    requires c.Valid() && c.TablesRead()
    ensures AudioLangs(c.Bytes(), norm) == Codes(AllDeclared(c.pmt.streams) + AllStray(c.pmt.streams), norm)
  {
    SplitInvertsFraming(c.frames, c.gap, c.truncated);
    PmtPidOfEncoded(c.packets, c.pat, c.patFlags);
    ReassemblyInvertsPacketization(c.packets, c.PmtPid(), 0x02, c.pmtFlags, c.pmt.Body());
    PmtLangsOfEncoded(c.pmt, c.pmtFlags, norm);
  }

  /**
   Of a capture whose tables are read, the reader reports exactly the declared
   languages, whatever the normalizer is, if and only if every stray triple is
   declared anyway.
   */
  lemma AudioLangsExactIff(c: Capture)
    requires c.Valid() && c.TablesRead()
    ensures
      (forall norm: seq<Byte> -> string :: AudioLangs(c.Bytes(), norm) == Codes(AllDeclared(c.pmt.streams), norm)) <==>
      AllStray(c.pmt.streams) <= AllDeclared(c.pmt.streams)
  {
    var declared, stray := AllDeclared(c.pmt.streams), AllStray(c.pmt.streams);
    forall norm: seq<Byte> -> string
      ensures AudioLangs(c.Bytes(), norm) == Codes(declared + stray, norm)
    {
      AudioLangsOfCapture(c, norm);
    }
    if stray <= declared {
      assert declared + stray == declared;
    } else {
      var t :| t in stray && t !in declared;
      var norm := (u: seq<Byte>) => if u == t then "x" else "";
      assert norm(t) in Codes(declared + stray, norm);
      assert norm(t) !in Codes(declared, norm);
    }
  }

  // ----- an encoder for a whole broadcast -----

  /** The packets on the wire, each after its own gap. */
  function Framing(ps: seq<Packet>, gaps: seq<seq<Byte>>): seq<Framed>
    requires AllEncodable(ps) && |gaps| == |ps|
  {
    if ps == [] then [] else [Framed(gaps[0], ps[0].Encode())] + Framing(ps[1..], gaps[1..])
  }

  lemma {:induction false} FramingCarries(ps: seq<Packet>, gaps: seq<seq<Byte>>)
    requires AllEncodable(ps) && |gaps| == |ps| && forall g | g in gaps :: 0x47 !in g
    ensures AllValid(Framing(ps, gaps)) && Packets(Framing(ps, gaps)) == EncodeAll(ps)
  {
    if ps != [] {
      PayloadOfEncoded(ps[0]);
      FramingCarries(ps[1..], gaps[1..]);
      var fs, rest := Framing(ps, gaps), Framing(ps[1..], gaps[1..]);
      assert fs[1..] == rest;
      assert forall i | 1 <= i < |fs| :: fs[i] == rest[i - 1];
    }
  }

  /**
   ps carries the PAT and, on the PID it names first, the PMT, uncut by pointer
   fields: in any packets, with any adaptation fields, behind the skipped end of
   an earlier section or at once, followed by any sections, among any other PIDs.
   */
  predicate Carries(ps: seq<Packet>, pat: Pat, patFlags: nat, patAt: nat, pmt: Pmt, pmtFlags: nat, pmtAt: nat) {
    && AllEncodable(ps) && pat.Valid() && pmt.Valid() && patFlags < 16 && pmtFlags < 16
    && Intact(Wire(ps, 0), Section(0x00, patFlags, pat.Body()), patAt)
    && FirstProgram(pat.programs).Some?
    && Intact(Wire(ps, FirstProgram(pat.programs).value), Section(0x02, pmtFlags, pmt.Body()), pmtAt)
  }

  /** From the tables to the languages: such a broadcast, framed by any gaps and cut off anywhere, is read. */
  lemma BroadcastIsRead(ps: seq<Packet>, pat: Pat, patFlags: nat, patAt: nat, pmt: Pmt, pmtFlags: nat, pmtAt: nat,
                        gaps: seq<seq<Byte>>, gap: seq<Byte>, truncated: seq<Byte>, norm: seq<Byte> -> string)
    requires Carries(ps, pat, patFlags, patAt, pmt, pmtFlags, pmtAt)
    requires |gaps| == |ps| && (forall g | g in gaps :: 0x47 !in g) && IsTail(gap, truncated)
    ensures AudioLangs(Frame(Framing(ps, gaps)) + (gap + truncated), norm) ==
            Codes(AllDeclared(pmt.streams) + AllStray(pmt.streams), norm)
  {
    hide Section, Wire, Intact;
    FramingCarries(ps, gaps);
    var c := Capture(Framing(ps, gaps), gap, truncated, ps, pat, patFlags, pmt, pmtFlags);
    TablesReadIff(c, patAt, pmtAt);
    AudioLangsOfCapture(c, norm);
  }

  lemma {:induction false} OnlyPidOfConcat(a: seq<Packet>, b: seq<Packet>, pid: nat)
    ensures OnlyPid(a + b, pid) == OnlyPid(a, pid) + OnlyPid(b, pid)
  {
    if a == [] {
      assert a + b == b;
    } else {
      var head := if a[0].pid == pid then [a[0]] else [];
      assert (a + b)[1..] == a[1..] + b;
      OnlyPidOfConcat(a[1..], b, pid);
      assert OnlyPid(a, pid) == head + OnlyPid(a[1..], pid);
      assert OnlyPid(a + b, pid) == head + OnlyPid(a[1..] + b, pid);
      hide OnlyPid;
      assert head + (OnlyPid(a[1..], pid) + OnlyPid(b, pid)) == (head + OnlyPid(a[1..], pid)) + OnlyPid(b, pid);
    }
  }

  lemma {:induction false} OnlyPidOfUniform(ps: seq<Packet>, q: nat, pid: nat)
    requires forall p | p in ps :: p.pid == q
    ensures OnlyPid(ps, pid) == if pid == q then ps else []
  {
    if ps != [] {
      assert ps[0] in ps;
      OnlyPidOfUniform(ps[1..], q, pid);
    }
  }

  lemma {:induction false} CutRestOnPid(pid: nat, bytes: seq<Byte>)
    ensures forall p | p in CutRest(pid, bytes) :: p.pid == pid
    decreases |bytes|
  {
    if |bytes| > 184 {
      CutRestOnPid(pid, bytes[184..]);
    }
  }

  lemma PacketizeOnPid(pid: nat, section: seq<Byte>)
    requires pid < 8192
    ensures AllEncodable(Packetize(pid, section)) && forall p | p in Packetize(pid, section) :: p.pid == pid
  {
    if |section| > 183 {
      CutRestOnPid(pid, section[183..]);
      CutRestCarries(pid, section[183..]);
    }
  }

  /** Every PAT that names a program off PID 0, and every PMT, can be broadcast: one after the other, say. */
  lemma EveryShowCanBeBroadcast(pat: Pat, patFlags: nat, pmt: Pmt, pmtFlags: nat, pid: nat)
    requires pat.Valid() && pmt.Valid() && patFlags < 16 && pmtFlags < 16
    requires FirstProgram(pat.programs) == Some(pid) && 0 < pid < 8192
    ensures Carries(Packetize(0, Section(0x00, patFlags, pat.Body())) + Packetize(pid, Section(0x02, pmtFlags, pmt.Body())),
                    pat, patFlags, 0, pmt, pmtFlags, 0)
  {
    hide Section, Packetize, Wire, Intact;
    var s1, s2 := Section(0x00, patFlags, pat.Body()), Section(0x02, pmtFlags, pmt.Body());
    var a, b := Packetize(0, s1), Packetize(pid, s2);
    PacketizeOnPid(0, s1);
    PacketizeOnPid(pid, s2);
    OnlyPidOfConcat(a, b, 0);
    OnlyPidOfConcat(a, b, pid);
    OnlyPidOfUniform(a, 0, 0);
    OnlyPidOfUniform(a, 0, pid);
    OnlyPidOfUniform(b, pid, 0);
    OnlyPidOfUniform(b, pid, pid);
    PacketizedSectionArrives(a + b, 0, s1);
    PacketizedSectionArrives(a + b, pid, s2);
  }
}
