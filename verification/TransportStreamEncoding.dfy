/**
 The encoder the repository does not have: packets, sections, PAT and PMT in
 the layout of ISO/IEC 13818-1 (sections 2.4.3, 2.4.4 and 2.6.18), and the
 proof that the reader of TransportStream inverts each of them.
 */
module TransportStreamEncoding {
  import opened Prelude
  import opened TransportStream

  // ----- packets in a byte stream -----

  /** Bytes between packets, and the packet that follows them. */
  datatype Framed = Framed(gap: seq<Byte>, packet: seq<Byte>) {
    predicate Valid() {
      0x47 !in gap && IsPacket(packet)
    }
  }

  predicate AllValid(fs: seq<Framed>) {
    forall i | 0 <= i < |fs| :: fs[i].Valid()
  }

  function Frame(fs: seq<Framed>): seq<Byte> {
    if fs == [] then [] else fs[0].gap + (fs[0].packet + Frame(fs[1..]))
  }

  function Packets(fs: seq<Framed>): seq<seq<Byte>> {
    if fs == [] then [] else [fs[0].packet] + Packets(fs[1..])
  }

  /** What may follow the last packet: bytes without a sync byte, then at most a truncated packet. */
  predicate IsTail(gap: seq<Byte>, truncated: seq<Byte>) {
    0x47 !in gap && |truncated| < 188 && (truncated != [] ==> truncated[0] == 0x47)
  }

  lemma {:induction false} SplitSkipsGap(gap: seq<Byte>, rest: seq<Byte>)
    requires 0x47 !in gap
    ensures SplitPackets(gap + rest) == SplitPackets(rest)
  {
    if gap == [] {
      assert gap + rest == rest;
    } else {
      assert (gap + rest)[1..] == gap[1..] + rest;
      SplitSkipsGap(gap[1..], rest);
    }
  }

  /** Whatever gaps separate the packets, and however the capture is cut off, splitTS returns the packets. */
  lemma {:induction false} SplitInvertsFraming(fs: seq<Framed>, gap: seq<Byte>, truncated: seq<Byte>)
    requires AllValid(fs)
    requires IsTail(gap, truncated)
    ensures SplitPackets(Frame(fs) + (gap + truncated)) == Packets(fs)
    decreases |fs|
  {
    var tail := gap + truncated;
    if fs == [] {
      assert Frame(fs) + tail == tail;
      SplitSkipsGap(gap, truncated);
    } else {
      var f, rest := fs[0], Frame(fs[1..]) + tail;
      assert Frame(fs) + tail == f.gap + (f.packet + rest);
      SplitSkipsGap(f.gap, f.packet + rest);
      assert (f.packet + rest)[..188] == f.packet;
      assert (f.packet + rest)[188..] == rest;
      SplitInvertsFraming(fs[1..], gap, truncated);
    }
  }

  lemma Reassociate<T>(a: seq<T>, b: seq<T>, c: seq<T>, d: seq<T>)
    ensures (a + (b + c)) + d == a + (b + (c + d))
  {
  }

  lemma FrameCons(f: Framed, fs: seq<Framed>, tail: seq<Byte>)
    requires f.Valid() && AllValid(fs)
    ensures AllValid([f] + fs)
    ensures Frame([f] + fs) + tail == f.gap + (f.packet + (Frame(fs) + tail))
    ensures Packets([f] + fs) == [f.packet] + Packets(fs)
  {
    assert ([f] + fs)[1..] == fs;
    Reassociate(f.gap, f.packet, Frame(fs), tail);
  }

  /** As SplitIsAFraming, with the gap bytes already passed over in before. */
  lemma {:induction false} SplitIsAFramingFrom(before: seq<Byte>, data: seq<Byte>)
    returns (fs: seq<Framed>, gap: seq<Byte>, truncated: seq<Byte>)
    requires 0x47 !in before
    ensures AllValid(fs)
    ensures IsTail(gap, truncated)
    ensures before + data == Frame(fs) + (gap + truncated)
    ensures Packets(fs) == SplitPackets(data)
    decreases |data|
  {
    if |data| == 0 || (data[0] == 0x47 && |data| < 188) {
      fs, gap, truncated := [], before, data;
      assert Frame(fs) + (gap + truncated) == before + data;
    } else if data[0] != 0x47 {
      fs, gap, truncated := SplitIsAFramingFrom(before + [data[0]], data[1..]);
      assert data == [data[0]] + data[1..];
      assert (before + [data[0]]) + data[1..] == before + data;
    } else {
      var f, rest := Framed(before, data[..188]), data[188..];
      fs, gap, truncated := SplitIsAFramingFrom([], rest);
      assert [] + rest == rest;
      FrameCons(f, fs, gap + truncated);
      assert data == f.packet + rest;
      fs := [f] + fs;
    }
  }

  /** Every byte string is a framing of the packets splitTS returns: no packet is missed or invented. */
  lemma SplitIsAFraming(data: seq<Byte>)
    ensures exists fs, gap, truncated ::
      AllValid(fs) && IsTail(gap, truncated) && data == Frame(fs) + (gap + truncated) && Packets(fs) == SplitPackets(data)
  {
    var fs, gap, truncated := SplitIsAFramingFrom([], data);
    assert [] + data == data;
  }

  // ----- one packet -----

  /**
   A packet by its fields.  adaptation is the adaptation field without its
   length byte; unitStart, when present, is what lies between the pointer field
   and its target: the end of the section that began in an earlier packet.
   */
  datatype Packet = Packet(pid: nat, errorIndicator: bool, priority: bool, scrambling: nat, counter: nat,
                           adaptation: Option<seq<Byte>>, unitStart: Option<seq<Byte>>, payload: seq<Byte>)
  {
    predicate HasPayload() {
      unitStart.Some? || payload != []
    }

    predicate Valid() {
      && pid < 8192 && scrambling < 4 && counter < 16
      && (adaptation.Some? ==> |adaptation.value| < 256)
      && (unitStart.Some? ==> |unitStart.value| < 256)
      && 4 + |Prefixed(adaptation)| + |Prefixed(unitStart)| + |payload| == 188
    }

    function Header(): (h: seq<Byte>)
      requires pid < 8192 && scrambling < 4 && counter < 16
    {
      [0x47,
       Bit(errorIndicator) * 128 + Bit(unitStart.Some?) * 64 + Bit(priority) * 32 + pid / 256,
       pid % 256,
       scrambling * 64 + Bit(adaptation.Some?) * 32 + Bit(HasPayload()) * 16 + counter]
    }

    function Encode(): seq<Byte>
      requires Valid()
    {
      Header() + Prefixed(adaptation) + Prefixed(unitStart) + payload
    }
  }

  function Bit(b: bool): int {
    if b then 1 else 0
  }

  /** A field behind its one-byte length, or nothing. */
  function Prefixed(field: Option<seq<Byte>>): (bytes: seq<Byte>)
    requires field.Some? ==> |field.value| < 256
  {
    if field.None? then [] else [|field.value|] + field.value
  }

  lemma HeaderFields(p: Packet)
    requires p.Valid()
    ensures
      var h := p.Header();
      && h[1] % 32 == p.pid / 256
      && Word(h[1] % 32, h[2]) == p.pid
      && h[1] / 64 % 2 == Bit(p.unitStart.Some?)
      && h[3] / 16 % 4 == Bit(p.adaptation.Some?) * 2 + Bit(p.HasPayload())
  {
    SecondByte(p.errorIndicator, p.unitStart.Some?, p.priority, p.pid / 256);
    FourthByte(p.scrambling, p.adaptation.Some?, p.HasPayload(), p.counter);
  }

  lemma SecondByte(e: bool, u: bool, p: bool, high: nat)
    requires high < 32
    ensures
      var b := Bit(e) * 128 + Bit(u) * 64 + Bit(p) * 32 + high;
      b < 256 && b % 32 == high && b / 64 % 2 == Bit(u)
  {
  }

  lemma FourthByte(scrambling: nat, a: bool, b: bool, counter: nat)
    requires scrambling < 4 && counter < 16
    ensures
      var x := scrambling * 64 + Bit(a) * 32 + Bit(b) * 16 + counter;
      x < 256 && x / 16 % 4 == Bit(a) * 2 + Bit(b)
  {
  }

  lemma PrefixedReads(before: seq<Byte>, field: Option<seq<Byte>>, after: seq<Byte>)
    requires field.Some? ==> |field.value| < 256
    ensures
      var all := before + Prefixed(field) + after;
      && (field.Some? ==> all[|before|] as int == |field.value|)
      && all[|before| + |Prefixed(field)|..] == after
  {
  }

  /** The offsets tsPayload computes, from the length bytes alone. */
  lemma PayloadBehindOffsets(e: seq<Byte>, hasField: bool, fieldLen: nat, hasUnit: bool, unitLen: nat)
    requires |e| == 188 && 4 + fieldLen + unitLen <= |e|
    requires if hasField then fieldLen > 0 && e[4] as int == fieldLen - 1 else fieldLen == 0
    requires if hasUnit then unitLen > 0 && e[4 + fieldLen] as int == unitLen - 1 else unitLen == 0
    ensures
      var payload := e[4 + fieldLen + unitLen..];
      PayloadBehind(e, Bit(hasField) * 2 + Bit(hasUnit || payload != []), hasUnit) == payload
  {
  }

  /** Where the fields of an encoded packet lie. */
  lemma EncodedLayout(p: Packet)
    requires p.Valid()
    ensures
      var e, af, us := p.Encode(), |Prefixed(p.adaptation)|, |Prefixed(p.unitStart)|;
      && IsPacket(e) && e[..4] == p.Header()
      && (p.adaptation.Some? ==> e[4] as int == af - 1)
      && (p.unitStart.Some? ==> e[4 + af] as int == us - 1)
      && e[4 + af + us..] == p.payload
  {
    var e, h, af, us := p.Encode(), p.Header(), Prefixed(p.adaptation), Prefixed(p.unitStart);
    PrefixedReads(h, p.adaptation, us + p.payload);
    assert h + af + (us + p.payload) == e;
    PrefixedReads(h + af, p.unitStart, p.payload);
  }

  /** tsPayload reads back the PID and exactly the payload, for every combination of optional fields. */
  lemma PayloadOfEncoded(p: Packet)
    requires p.Valid()
    ensures IsPacket(p.Encode())
    ensures PacketPayload(p.Encode()) == (p.pid, p.payload)
  {
    var e, h, af, us := p.Encode(), p.Header(), |Prefixed(p.adaptation)|, |Prefixed(p.unitStart)|;
    EncodedLayout(p);
    HeaderFields(p);
    assert e[1] == e[..4][1] && e[2] == e[..4][2] && e[3] == e[..4][3];
    PayloadBehindOffsets(e, p.adaptation.Some?, af, p.unitStart.Some?, us);
  }

  // ----- one PID among many -----

  predicate AllEncodable(ps: seq<Packet>) {
    forall i | 0 <= i < |ps| :: ps[i].Valid()
  }

  function EncodeAll(ps: seq<Packet>): seq<seq<Byte>>
    requires AllEncodable(ps)
  {
    if ps == [] then [] else [ps[0].Encode()] + EncodeAll(ps[1..])
  }

  /** The bytes of one PID that tsPayload keeps, whatever packets of other PIDs are interleaved. */
  function PidPayload(ps: seq<Packet>, pid: nat): seq<Byte> {
    if ps == [] then []
    else (if ps[0].pid == pid then ps[0].payload else []) + PidPayload(ps[1..], pid)
  }

  lemma {:induction false} PidBytesOfEncoded(ps: seq<Packet>, pid: nat)
    requires AllEncodable(ps)
    ensures PidBytes(EncodeAll(ps), pid) == PidPayload(ps, pid)
  {
    if ps != [] {
      PayloadOfEncoded(ps[0]);
      PidBytesOfEncoded(ps[1..], pid);
    }
  }

  // ----- sections -----

  /** A section: table id, four flag bits, the 12-bit length of the rest, the rest. */
  function Section(tableID: Byte, flags: nat, body: seq<Byte>): (s: seq<Byte>)
    requires flags < 16 && |body| < 4096
    ensures |s| == 3 + |body|
  {
    [tableID, flags * 16 + |body| / 256, |body| % 256] + body
  }

  // ----- PAT -----

  datatype Program = Program(number: nat, pid: nat) {
    predicate Valid() {
      number < 65536 && pid < 8192
    }

    function Encode(): (e: seq<Byte>)
      requires Valid()
      ensures |e| == 4
    {
      [number / 256, number % 256, 7 * 32 + pid / 256, pid % 256]
    }
  }

  predicate AllPrograms(programs: seq<Program>) {
    forall i | 0 <= i < |programs| :: programs[i].Valid()
  }

  function EncodePrograms(programs: seq<Program>): (e: seq<Byte>)
    requires AllPrograms(programs)
    ensures |e| == 4 * |programs|
  {
    if programs == [] then [] else programs[0].Encode() + EncodePrograms(programs[1..])
  }

  /** What the caller wants: the PMT PID of the first program that is not the network entry 0. */
  function FirstProgram(programs: seq<Program>): Option<nat> {
    if programs == [] then None
    else if programs[0].number != 0 then Some(programs[0].pid)
    else FirstProgram(programs[1..])
  }

  lemma {:induction false} FirstProgramPidOfEncoded(programs: seq<Program>)
    requires AllPrograms(programs)
    ensures FirstProgramPid(EncodePrograms(programs)) ==
            (match FirstProgram(programs) case Some(pid) => pid case None => -1)
  {
    if programs != [] {
      var e, p := EncodePrograms(programs), programs[0];
      assert e[..4] == p.Encode() && e[4..] == EncodePrograms(programs[1..]);
      assert e[0] == p.number / 256 && e[1] == p.number % 256;
      assert p.number == Word(p.number / 256, p.number % 256);
      assert e[2] % 32 == p.pid / 256;
      FirstProgramPidOfEncoded(programs[1..]);
    }
  }

  datatype Pat = Pat(header: seq<Byte>, programs: seq<Program>, crc: seq<Byte>) {
    predicate Valid() {
      |header| == 5 && |crc| == 4 && AllPrograms(programs) && 9 + 4 * |programs| < 4096
    }

    function Body(): (b: seq<Byte>)
      requires Valid()
      ensures |b| == 9 + 4 * |programs|
    {
      header + EncodePrograms(programs) + crc
    }
  }

  lemma PatProgramPidOfEncoded(pat: Pat, flags: nat)
    requires pat.Valid() && flags < 16
    ensures PatProgramPid(Section(0x00, flags, pat.Body())) ==
            (match FirstProgram(pat.programs) case Some(pid) => pid case None => -1)
  {
    var section, programs := Section(0x00, flags, pat.Body()), EncodePrograms(pat.programs);
    var before := section[..3] + pat.header;
    assert section == before + programs + pat.crc;
    MiddleOf(before, programs, pat.crc);
    FirstProgramPidOfEncoded(pat.programs);
  }

  // ----- PMT -----

  datatype Descriptor = Descriptor(tag: Byte, data: seq<Byte>) {
    function Encode(): (e: seq<Byte>)
      requires |data| < 256
      ensures |e| == 2 + |data|
    {
      [tag, |data|] + data
    }
  }

  predicate AllDescriptors(ds: seq<Descriptor>) {
    forall i | 0 <= i < |ds| :: |ds[i].data| < 256
  }

  function EncodeDescriptors(ds: seq<Descriptor>): seq<Byte>
    requires AllDescriptors(ds)
  {
    if ds == [] then [] else ds[0].Encode() + EncodeDescriptors(ds[1..])
  }

  datatype Stream = Stream(kind: Byte, pid: nat, descriptors: seq<Descriptor>) {
    predicate Valid() {
      pid < 8192 && AllDescriptors(descriptors) && |EncodeDescriptors(descriptors)| < 4096
    }

    function Encode(): seq<Byte>
      requires Valid()
    {
      var info := EncodeDescriptors(descriptors);
      [kind, 7 * 32 + pid / 256, pid % 256, 15 * 16 + |info| / 256, |info| % 256] + info
    }
  }

  predicate AllStreams(streams: seq<Stream>) {
    forall i | 0 <= i < |streams| :: streams[i].Valid()
  }

  function EncodeStreams(streams: seq<Stream>): seq<Byte>
    requires AllStreams(streams)
  {
    if streams == [] then [] else streams[0].Encode() + EncodeStreams(streams[1..])
  }

  /** header is everything up to and including the PCR PID; then the program descriptors, streams and CRC. */
  datatype Pmt = Pmt(header: seq<Byte>, info: seq<Byte>, streams: seq<Stream>, crc: seq<Byte>) {
    predicate Valid() {
      |header| == 7 && |crc| == 4 && |info| < 4096 && AllStreams(streams) &&
      13 + |info| + |EncodeStreams(streams)| < 4096
    }

    function Body(): (b: seq<Byte>)
      requires Valid()
      ensures 13 <= |b| < 4096
    {
      header + [15 * 16 + |info| / 256, |info| % 256] + info + EncodeStreams(streams) + crc
    }
  }

  // ----- languages -----

  /** The first language of a descriptor that is long enough to hold one. */
  function DeclaredTriples(ds: seq<Descriptor>): set<seq<Byte>> {
    set d | d in ds && d.tag == 0x0A && |d.data| >= 4 :: d.data[..3]
  }

  /** What the reader picks up at language descriptors too short for a language: bytes of the next descriptors. */
  function StrayTriples(ds: seq<Descriptor>): set<seq<Byte>>
    requires AllDescriptors(ds)
  {
    if ds == [] then {}
    else
      (if ds[0].tag == 0x0A && |ds[0].data| < 4 && |EncodeDescriptors(ds)| >= 6
       then {EncodeDescriptors(ds)[2..5]} else {}) +
      StrayTriples(ds[1..])
  }

  /** The caller's set: each triple's normalized code, unknown ones left out. */
  function Codes(triples: set<seq<Byte>>, norm: seq<Byte> -> string): set<string> {
    set t | t in triples && norm(t) != "" :: norm(t)
  }

  lemma CodesOfUnion(a: set<seq<Byte>>, b: set<seq<Byte>>, norm: seq<Byte> -> string)
    ensures Codes(a + b, norm) == Codes(a, norm) + Codes(b, norm)
  {
  }

  lemma DeclaredTriplesStep(ds: seq<Descriptor>)
    requires ds != []
    ensures
      var d := ds[0];
      DeclaredTriples(ds) ==
      (if d.tag == 0x0A && |d.data| >= 4 then {d.data[..3]} else {}) + DeclaredTriples(ds[1..])
  {
    assert ds == [ds[0]] + ds[1..];
  }

  /** The triple the reader takes at the first descriptor, if any. */
  function ReadTriple(ds: seq<Descriptor>): set<seq<Byte>>
    requires AllDescriptors(ds) && ds != []
  {
    if ds[0].tag == 0x0A && |EncodeDescriptors(ds)| >= 6 then {EncodeDescriptors(ds)[2..5]} else {}
  }

  lemma EncodedDescriptorsHead(ds: seq<Descriptor>)
    requires AllDescriptors(ds) && ds != []
    ensures
      var e, d := EncodeDescriptors(ds), ds[0];
      |e| >= 2 + |d.data| && e[0] == d.tag && e[1] as int == |d.data| && e[2 + |d.data|..] == EncodeDescriptors(ds[1..])
  {
    var d, rest := ds[0], EncodeDescriptors(ds[1..]);
    MiddleOf([d.tag, |d.data|], d.data, rest);
    assert EncodeDescriptors(ds) == [d.tag, |d.data|] + d.data + rest;
  }

  lemma DescriptorLangsStep(ds: seq<Descriptor>, norm: seq<Byte> -> string)
    requires AllDescriptors(ds) && ds != []
    ensures DescriptorLangs(EncodeDescriptors(ds), norm) ==
            Codes(ReadTriple(ds), norm) + DescriptorLangs(EncodeDescriptors(ds[1..]), norm)
  {
    EncodedDescriptorsHead(ds);
    hide EncodeDescriptors;
    var e := EncodeDescriptors(ds);
    if |e| >= 6 {
      CodesOfOne(e[2..5], norm);
    }
    NoCodes(norm);
    hide Codes, Code;
  }

  lemma CodesOfOne(t: seq<Byte>, norm: seq<Byte> -> string)
    ensures Codes({t}, norm) == Code(norm(t))
  {
  }

  lemma NoCodes(norm: seq<Byte> -> string)
    ensures Codes({}, norm) == {}
  {
  }

  lemma TriplesStep(ds: seq<Descriptor>)
    requires AllDescriptors(ds) && ds != []
    ensures DeclaredTriples(ds) + StrayTriples(ds) ==
            ReadTriple(ds) + (DeclaredTriples(ds[1..]) + StrayTriples(ds[1..]))
  {
    var e, d := EncodeDescriptors(ds), ds[0];
    DeclaredTriplesStep(ds);
    assert |d.data| >= 4 ==> e[2..5] == d.data[..3];
  }

  lemma {:induction false} DescriptorLangsOfEncoded(ds: seq<Descriptor>, norm: seq<Byte> -> string)
    requires AllDescriptors(ds)
    ensures DescriptorLangs(EncodeDescriptors(ds), norm) == Codes(DeclaredTriples(ds) + StrayTriples(ds), norm)
  {
    if ds != [] {
      DescriptorLangsStep(ds, norm);
      TriplesStep(ds);
      CodesOfUnion(ReadTriple(ds), DeclaredTriples(ds[1..]) + StrayTriples(ds[1..]), norm);
      DescriptorLangsOfEncoded(ds[1..], norm);
    }
  }

  function AllDeclared(streams: seq<Stream>): set<seq<Byte>> {
    set s, t | s in streams && t in DeclaredTriples(s.descriptors) :: t
  }

  function AllStray(streams: seq<Stream>): set<seq<Byte>>
    requires AllStreams(streams)
  {
    if streams == [] then {} else StrayTriples(streams[0].descriptors) + AllStray(streams[1..])
  }

  lemma AllDeclaredStep(streams: seq<Stream>)
    requires streams != []
    ensures AllDeclared(streams) == DeclaredTriples(streams[0].descriptors) + AllDeclared(streams[1..])
  {
    assert streams == [streams[0]] + streams[1..];
  }

  lemma StreamLangsStep(streams: seq<Stream>, norm: seq<Byte> -> string)
    requires AllStreams(streams) && streams != []
    ensures StreamLangs(EncodeStreams(streams), norm) ==
            DescriptorLangs(EncodeDescriptors(streams[0].descriptors), norm) +
            StreamLangs(EncodeStreams(streams[1..]), norm)
  {
    var e, info := EncodeStreams(streams), EncodeDescriptors(streams[0].descriptors);
    assert e[..5] == streams[0].Encode()[..5];
    assert InfoLength(e) == |info|;
    assert e[5..5 + |info|] == info;
    assert e[5 + |info|..] == EncodeStreams(streams[1..]);
  }

  lemma {:induction false} StreamLangsOfEncoded(streams: seq<Stream>, norm: seq<Byte> -> string)
    requires AllStreams(streams)
    ensures StreamLangs(EncodeStreams(streams), norm) == Codes(AllDeclared(streams) + AllStray(streams), norm)
  {
    if streams != [] {
      var ds, rest := streams[0].descriptors, streams[1..];
      StreamLangsStep(streams, norm);
      DescriptorLangsOfEncoded(ds, norm);
      StreamLangsOfEncoded(rest, norm);
      CodesOfUnion(DeclaredTriples(ds) + StrayTriples(ds), AllDeclared(rest) + AllStray(rest), norm);
      AllDeclaredStep(streams);
      assert AllDeclared(streams) + AllStray(streams) ==
             (DeclaredTriples(ds) + StrayTriples(ds)) + (AllDeclared(rest) + AllStray(rest));
    }
  }

  lemma PmtLangsOfEncoded(pmt: Pmt, flags: nat, norm: seq<Byte> -> string)
    requires pmt.Valid() && flags < 16
    ensures PmtLangs(Section(0x02, flags, pmt.Body()), norm) ==
            Codes(AllDeclared(pmt.streams) + AllStray(pmt.streams), norm)
  {
    var section, body, streams := Section(0x02, flags, pmt.Body()), pmt.Body(), EncodeStreams(pmt.streams);
    var before := section[..3] + pmt.header + [15 * 16 + |pmt.info| / 256, |pmt.info| % 256] + pmt.info;
    assert section == before + streams + pmt.crc;
    assert section[10] % 16 == |pmt.info| / 256 && section[11] as int == |pmt.info| % 256;
    MiddleOf(before, streams, pmt.crc);
    StreamLangsOfEncoded(pmt.streams, norm);
  }

  /** No stray triple when every language descriptor holds a language, as the standard's own descriptors do. */
  lemma {:induction false} LongDescriptorsDoNotStray(streams: seq<Stream>)
    requires AllStreams(streams)
    requires forall s, d | s in streams && d in s.descriptors :: d.tag == 0x0A ==> |d.data| >= 4
    ensures AllStray(streams) == {}
  {
    if streams != [] {
      assert streams[0] in streams;
      NoStrayInDescriptors(streams[0].descriptors);
      LongDescriptorsDoNotStray(streams[1..]);
    }
  }

  lemma {:induction false} NoStrayInDescriptors(ds: seq<Descriptor>)
    requires AllDescriptors(ds)
    requires forall d | d in ds :: d.tag == 0x0A ==> |d.data| >= 4
    ensures StrayTriples(ds) == {}
  {
    if ds != [] {
      assert ds[0] in ds;
      NoStrayInDescriptors(ds[1..]);
    }
  }

  /** A language descriptor with no data makes the reader take its neighbour's header and data for a language. */
  lemma ShortDescriptorStrays()
    ensures
      var ds := [Descriptor(0x0A, []), Descriptor(0x52, [0x65, 0x6E])];
      DeclaredTriples(ds) == {} && StrayTriples(ds) == {[0x52, 2, 0x65]}
  {
    var a, b := Descriptor(0x0A, []), Descriptor(0x52, [0x65, 0x6E]);
    var ds := [a, b];
    assert ds[1..] == [b] && [b][1..] == [];
    assert EncodeDescriptors([b]) == [0x52, 2, 0x65, 0x6E];
    assert EncodeDescriptors(ds) == a.Encode() + EncodeDescriptors([b]);
    assert EncodeDescriptors(ds) == [0x0A, 0, 0x52, 2, 0x65, 0x6E];
    assert EncodeDescriptors(ds)[2..5] == [0x52, 2, 0x65];
    assert StrayTriples([b]) == {};
    assert StrayTriples(ds) == {EncodeDescriptors(ds)[2..5]} + StrayTriples(ds[1..]);
  }
}
