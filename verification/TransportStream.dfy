/**
 The MPEG-TS audio-language reader of internal/streaming/segment_probe.go.
 Bit masks are written as division and remainder on the byte's value.  The
 loops are methods, each proved against a function of the bytes; the meaning
 of those functions is in TransportStreamEncoding.
 */
module TransportStream {
  import opened Prelude

  const PACKET_SIZE := 188
  const SYNC_BYTE := 0x47
  const LANGUAGE_TAG := 0x0A
  const PAT_TABLE: Byte := 0x00
  const PMT_TABLE: Byte := 0x02

  /** A big-endian two-byte field whose high byte has been masked to hi. */
  function Word(hi: int, lo: int): int {
    hi * 256 + lo
  }

  /** The shape of every packet the splitter may emit. */
  predicate IsPacket(p: seq<Byte>) {
    |p| == PACKET_SIZE && p[0] == SYNC_BYTE
  }

  function SplitPackets(data: seq<Byte>): (packets: seq<seq<Byte>>)
    ensures forall p :: p in packets ==> IsPacket(p)
    decreases |data|
  {
    if |data| == 0 then []
    else if data[0] != SYNC_BYTE then SplitPackets(data[1..])
    else if |data| < PACKET_SIZE then []
    else [data[..PACKET_SIZE]] + SplitPackets(data[PACKET_SIZE..])
  }

  method SplitTS(data: seq<Byte>) returns (out: seq<seq<Byte>>)
    ensures out == SplitPackets(data)
  {
    out := [];
    var i := 0;
    assert data[0..] == data;
    while i < |data|
      invariant 0 <= i <= |data|
      invariant out + SplitPackets(data[i..]) == SplitPackets(data)
    {
      ghost var rest := data[i..];
      if data[i] != SYNC_BYTE {
        assert rest[1..] == data[i + 1..];
        i := i + 1;
        continue;
      }
      if i + PACKET_SIZE > |data| {
        break;
      }
      assert rest[..PACKET_SIZE] == data[i..i + PACKET_SIZE];
      assert rest[PACKET_SIZE..] == data[i + PACKET_SIZE..];
      out := out + [data[i..i + PACKET_SIZE]];
      i := i + PACKET_SIZE;
    }
  }

  /** The payload behind the adaptation and pointer fields, given the two header fields; absent is []. */
  function PayloadBehind(p: seq<Byte>, afc: int, unitStart: bool): seq<Byte>
    requires |p| >= PACKET_SIZE
  {
    if afc == 0 || afc == 2 then []
    else
      var off := if afc == 3 then 5 + p[4] as int else 4;
      if off >= |p| then []
      else
        var start := if unitStart then off + 1 + p[off] as int else off;
        if start >= |p| then [] else p[start..]
  }

  /** tsPayload: a packet's PID and payload. */
  function PacketPayload(p: seq<Byte>): (r: (int, seq<Byte>))
  {
    if |p| < PACKET_SIZE || p[0] != SYNC_BYTE then (-1, [])
    else (Word(p[1] % 32, p[2]), PayloadBehind(p, p[3] / 16 % 4, p[1] / 64 % 2 == 1))
  }

  /** Every payload byte one PID carries, in packet order. */
  function PidBytes(packets: seq<seq<Byte>>, pid: int): seq<Byte>
  {
    if packets == [] then []
    else
      var (got, payload) := PacketPayload(packets[0]);
      (if got == pid then payload else []) + PidBytes(packets[1..], pid)
  }

  /** The 12-bit section_length field. */
  function SectionLength(buf: seq<Byte>): (n: nat)
    requires |buf| >= 3
    ensures n < 4096
  {
    Word(buf[1] % 16, buf[2])
  }

  /** The section at the front of buf when it is complete and has the wanted table id, else []. */
  function FrontSection(buf: seq<Byte>, tableID: Byte): seq<Byte>
  {
    if |buf| > 8 && buf[0] == tableID && |buf| >= 3 + SectionLength(buf)
    then buf[..3 + SectionLength(buf)]
    else []
  }

  lemma FrontSectionOfLongerBuffer(buf: seq<Byte>, more: seq<Byte>, tableID: Byte)
    requires FrontSection(buf, tableID) != []
    ensures FrontSection(buf + more, tableID) == FrontSection(buf, tableID)
  {
  }

  /** One more packet, whose payload (if it is the PID's) follows what was buffered before. */
  lemma PidBytesStep(packets: seq<seq<Byte>>, k: nat, pid: int, buf: seq<Byte>, payload: seq<Byte>)
    requires k < |packets|
    requires payload == (var r := PacketPayload(packets[k]); if r.0 == pid then r.1 else [])
    ensures buf + PidBytes(packets[k..], pid) == (buf + payload) + PidBytes(packets[k + 1..], pid)
  {
    assert packets[k..][1..] == packets[k + 1..];
    assert PidBytes(packets[k..], pid) == payload + PidBytes(packets[k + 1..], pid);
  }

  /**
   Returning at the first packet that completes the section is the same as
   looking at everything the PID carries.
   */
  method TsSection(packets: seq<seq<Byte>>, pid: int, tableID: Byte) returns (section: seq<Byte>)
    ensures section == FrontSection(PidBytes(packets, pid), tableID)
  {
    ghost var whole := PidBytes(packets, pid);
    var buf: seq<Byte> := [];
    assert packets[0..] == packets;
    for k := 0 to |packets|
      invariant buf + PidBytes(packets[k..], pid) == whole
      invariant FrontSection(buf, tableID) == []
    {
      var (got, payload) := PacketPayload(packets[k]);
      PidBytesStep(packets, k, pid, buf, if got == pid then payload else []);
      if got != pid || |payload| == 0 {
        continue;
      }
      buf := buf + payload;
      if |buf| > 8 && buf[0] == tableID && |buf| >= 3 + SectionLength(buf) {
        section := buf[..3 + SectionLength(buf)];
        assert section == FrontSection(whole, tableID) by {
          FrontSectionOfLongerBuffer(buf, PidBytes(packets[k + 1..], pid), tableID);
        }
        return;
      }
    }
    section := [];
    assert section == FrontSection(whole, tableID) by {
      assert buf == whole;
    }
  }

  /** The PID of the first entry with a non-zero program number, or -1. */
  function FirstProgramPid(entries: seq<Byte>): int
  {
    if |entries| < 4 then -1
    else if entries[0] != 0 || entries[1] != 0 then Word(entries[2] % 32, entries[3])
    else FirstProgramPid(entries[4..])
  }

  function PatProgramPid(pat: seq<Byte>): int
  {
    if |pat| < 12 then -1 else FirstProgramPid(pat[8..|pat| - 4])
  }

  function PmtPid(packets: seq<seq<Byte>>): int
  {
    PatProgramPid(FrontSection(PidBytes(packets, 0), PAT_TABLE))
  }

  method TsPMTPID(packets: seq<seq<Byte>>) returns (pid: int)
    ensures pid == PmtPid(packets)
  {
    var pat := TsSection(packets, 0, PAT_TABLE);
    if |pat| < 12 {
      return -1;
    }
    var pos, end := 8, |pat| - 4;
    while pos + 4 <= end
      invariant 8 <= pos <= end
      invariant FirstProgramPid(pat[pos..end]) == PatProgramPid(pat)
    {
      if pat[pos] != 0 || pat[pos + 1] != 0 {
        return Word(pat[pos + 2] % 32, pat[pos + 3]);
      }
      assert pat[pos..end][4..] == pat[pos + 4..end];
      pos := pos + 4;
    }
    return -1;
  }

  /** The set a language code contributes: the empty code means unknown and adds nothing. */
  function Code(code: string): set<string> {
    if code == "" then {} else {code}
  }

  /** Languages read from one descriptor loop. */
  function DescriptorLangs(info: seq<Byte>, norm: seq<Byte> -> string): set<string>
    decreases |info|
  {
    if |info| < 2 then {}
    else
      (if info[0] == LANGUAGE_TAG && |info| >= 6 then Code(norm(info[2..5])) else {}) +
      (if 2 + info[1] <= |info| then DescriptorLangs(info[2 + info[1]..], norm) else {})
  }

  /** The 12-bit ES_info_length of the elementary-stream entry at the front of body. */
  function InfoLength(body: seq<Byte>): (n: nat)
    requires |body| >= 5
  {
    Word(body[3] % 16, body[4])
  }

  /** Languages read from the elementary-stream loop. */
  function StreamLangs(body: seq<Byte>, norm: seq<Byte> -> string): set<string>
    decreases |body|
  {
    if |body| < 5 then {}
    else
      var next := 5 + InfoLength(body);
      DescriptorLangs(body[5..Min(next, |body|)], norm) +
      (if next <= |body| then StreamLangs(body[next..], norm) else {})
  }

  /** Languages still ahead of the elementary-stream cursor, which may have run past end. */
  function StreamLangsFrom(pmt: seq<Byte>, pos: nat, end: int, norm: seq<Byte> -> string): set<string>
    requires end <= |pmt|
  {
    if pos <= end then StreamLangs(pmt[pos..end], norm) else {}
  }

  /** Languages of a whole PMT section: past the program descriptors, before the CRC. */
  function PmtLangs(pmt: seq<Byte>, norm: seq<Byte> -> string): set<string>
  {
    if |pmt| < 16 then {} else StreamLangsFrom(pmt, 12 + Word(pmt[10] % 16, pmt[11]), |pmt| - 4, norm)
  }

  function AudioLangs(seg: seq<Byte>, norm: seq<Byte> -> string): set<string>
  {
    var packets := SplitPackets(seg);
    var pid := PmtPid(packets);
    if pid < 0 then {} else PmtLangs(FrontSection(PidBytes(packets, pid), PMT_TABLE), norm)
  }

  /** Languages still ahead of a descriptor cursor, which may have run past its bound. */
  function DescriptorLangsFrom(pmt: seq<Byte>, dp: nat, bound: int, norm: seq<Byte> -> string): set<string>
    requires bound <= |pmt|
  {
    if dp <= bound then DescriptorLangs(pmt[dp..bound], norm) else {}
  }

  /** Everything a walk will have collected: already in out, still in this descriptor loop, and after it. */
  function WalkTotal(pmt: seq<Byte>, dp: nat, bound: int, norm: seq<Byte> -> string,
                     out: set<string>, after: set<string>): set<string>
    requires bound <= |pmt|
  {
    out + DescriptorLangsFrom(pmt, dp, bound, norm) + after
  }

  /** out after the descriptor at dp has been looked at. */
  function AddedLang(pmt: seq<Byte>, dp: nat, bound: nat, norm: seq<Byte> -> string, out: set<string>): set<string>
    requires dp + 2 <= bound <= |pmt|
  {
    if pmt[dp] == LANGUAGE_TAG && dp + 6 <= bound then out + Code(norm(pmt[dp + 2..dp + 5])) else out
  }

  lemma DescriptorStep(pmt: seq<Byte>, dp: nat, bound: nat, norm: seq<Byte> -> string,
                       out: set<string>, after: set<string>)
    requires dp + 2 <= bound <= |pmt|
    ensures WalkTotal(pmt, dp, bound, norm, out, after) ==
            WalkTotal(pmt, dp + 2 + pmt[dp + 1] as int, bound, norm, AddedLang(pmt, dp, bound, norm, out), after)
  {
    var info, next := pmt[dp..bound], 2 + pmt[dp + 1] as int;
    if dp + 6 <= bound {
      SliceOfSlice(pmt, dp, bound, 2, 5);
    }
    if dp + next <= bound {
      assert info[next..] == pmt[dp + next..bound];
    }
  }

  lemma StreamStep(pmt: seq<Byte>, pos: nat, end: nat, norm: seq<Byte> -> string, out: set<string>)
    requires pos + 5 <= end <= |pmt|
    ensures
      var dend := pos + 5 + Word(pmt[pos + 3] % 16, pmt[pos + 4]);
      out + StreamLangsFrom(pmt, pos, end, norm) ==
      WalkTotal(pmt, pos + 5, Min(dend, end), norm, out, StreamLangsFrom(pmt, dend, end, norm))
  {
    var body, next := pmt[pos..end], 5 + Word(pmt[pos + 3] % 16, pmt[pos + 4]);
    SliceOfSlice(pmt, pos, end, 5, Min(next, |body|));
    if pos + next <= end {
      assert body[next..] == pmt[pos + next..end];
    }
  }

  /** The inner loop of tsAudioLangs: one elementary stream's descriptors, read into out. */
  method ReadDescriptors(pmt: seq<Byte>, start: nat, dend: nat, end: nat, norm: seq<Byte> -> string,
                         before: set<string>, ghost after: set<string>)
    returns (out: set<string>)
    requires end <= |pmt|
    ensures out + after == WalkTotal(pmt, start, Min(dend, end), norm, before, after)
  {
    out := before;
    var dp := start;
    ghost var bound := Min(dend, end);
    ghost var total := WalkTotal(pmt, start, bound, norm, before, after);
    while dp + 2 <= dend && dp + 2 <= end
      invariant total == WalkTotal(pmt, dp, bound, norm, out, after)
      decreases end - dp
    {
      DescriptorStep(pmt, dp, bound, norm, out, after);
      ghost var added := AddedLang(pmt, dp, bound, norm, out);
      var tag, dlen := pmt[dp], pmt[dp + 1] as int;
      if tag == LANGUAGE_TAG && dp + 2 + 4 <= dend && dp + 2 + 4 <= end {
        var code := norm(pmt[dp + 2..dp + 5]);
        if code != "" {
          out := out + {code};
        }
      }
      assert out == added;
      dp := dp + 2 + dlen;
    }
  }

  /** The outer loop of tsAudioLangs: the elementary streams of one PMT section. */
  method ReadStreams(pmt: seq<Byte>, norm: seq<Byte> -> string) returns (out: set<string>)
    ensures out == PmtLangs(pmt, norm)
  {
    out := {};
    var pos, end := 12, |pmt| - 4;
    if pos > end {
      return;
    }
    pos := pos + Word(pmt[10] % 16, pmt[11]);
    ghost var total := PmtLangs(pmt, norm);
    assert total == out + StreamLangsFrom(pmt, pos, end, norm);
    hide StreamLangs, PmtLangs, WalkTotal;
    while pos + 5 <= end
      invariant 12 <= pos
      invariant total == out + StreamLangsFrom(pmt, pos, end, norm)
      decreases end - pos
    {
      StreamStep(pmt, pos, end, norm, out);
      var infoLen := Word(pmt[pos + 3] % 16, pmt[pos + 4]);
      var dend := pos + 5 + infoLen;
      out := ReadDescriptors(pmt, pos + 5, dend, end, norm, out, StreamLangsFrom(pmt, dend, end, norm));
      pos := dend;
    }
  }

  /**
   tsAudioLangs on arbitrary bytes: total, every index in range, and equal to
   the function above.  norm stands for normalizeAudioLang.
   */
  method TsAudioLangs(seg: seq<Byte>, norm: seq<Byte> -> string) returns (out: set<string>)
    ensures out == AudioLangs(seg, norm)
  {
    var packets := SplitTS(seg);
    if |packets| == 0 {
      return {};
    }
    var pmtPID := TsPMTPID(packets);
    if pmtPID < 0 {
      return {};
    }
    var pmt := TsSection(packets, pmtPID, PMT_TABLE);
    if |pmt| == 0 {
      return {};
    }
    out := ReadStreams(pmt, norm);
  }
}
