/** When a pop waits, succeeds or reports an error, in terms of the frames that the bytes received can begin. */
module FrameVerdicts {
  import opened Bytes
  import opened Packets
  import opened Framing

  /** s begins the frame of some packet of a supported version, or is that frame. */
  ghost predicate Begins(s: seq<byte>) {
    exists p: Packet :: 1 <= p.version <= 28 && s <= Encode(p)
  }

  /** How many bytes a pop has looked at: nothing before five bytes are there, then the opening tag; with 23 bytes the
      header; and all of the frame once it is there. */
  function Examined(buf: seq<byte>): (n: nat)
    ensures n <= |buf|
  {
    if |buf| < 5 then 0
    else if |buf| < 23 then 5
    else if |buf| < 23 + DataSizeOf(buf) then 18
    else 23 + DataSizeOf(buf)
  }

  lemma {:induction false} BeginsWith(s: seq<byte>, p: Packet)
    requires 1 <= p.version <= 28 && s <= Encode(p)
    ensures Begins(s)
  {
  }

  /** A header that respects the limits begins the frame of a packet, which the bytes behind it can complete. */
  lemma {:induction false} HeaderBegins(m: seq<byte>, data: seq<byte>) returns (p: Packet)
    requires HEADER_SIZE <= |m| && m[..TAG_SIZE] == TAG && 1 <= VersionOf(m) <= 28
    requires |data| == DataSizeOf(m) <= MAX_DATA_SIZE
    ensures p.version == VersionOf(m) && Encode(p) == m[..HEADER_SIZE] + data + TAG
  {
    var whole := m[..HEADER_SIZE] + data;
    assert forall i :: 0 <= i < HEADER_SIZE ==> whole[i] == m[i];
    assert whole[..TAG_SIZE] == m[..TAG_SIZE];
    EncodeRead(whole);
    p := Read(whole);
    assert whole[..HEADER_SIZE + |data|] == whole;
  }

  /** What a beginning of 18 bytes or more tells. */
  lemma {:induction false} BeginningTells(buf: seq<byte>, n: nat)
    requires HEADER_SIZE <= n <= |buf| && Begins(buf[..n])
    ensures buf[..TAG_SIZE] == TAG && 1 <= VersionOf(buf) <= 28 && DataSizeOf(buf) <= MAX_DATA_SIZE
    ensures n == HEADER_SIZE + DataSizeOf(buf) + TAG_SIZE ==> buf[HEADER_SIZE + DataSizeOf(buf)..n] == TAG
  {
    var p: Packet :| 1 <= p.version <= 28 && buf[..n] <= Encode(p);
    HeaderOfEncode(p, []);
    assert Encode(p) + [] == Encode(p);
    assert forall i :: 0 <= i < n ==> buf[i] == buf[..n][i] == Encode(p)[i];
    assert buf[..TAG_SIZE] == Encode(p)[..TAG_SIZE];
    if n == HEADER_SIZE + DataSizeOf(buf) + TAG_SIZE {
      assert buf[n - TAG_SIZE..n] == Encode(p)[n - TAG_SIZE..n];
    }
  }

  lemma {:induction false} TagBegins(s: seq<byte>)
    requires |s| <= TAG_SIZE
    ensures Begins(s) <==> s == TAG[..|s|]
  {
    var p: Packet := RawPacket.Packet(1, 0, 0, []);
    assert Encode(p)[..TAG_SIZE] == TAG;
    if s == TAG[..|s|] {
      assert Encode(p)[..|s|] == TAG[..|s|];
      BeginsWith(s, p);
    }
    if Begins(s) {
      var q: Packet :| 1 <= q.version <= 28 && s <= Encode(q);
      assert Encode(q)[..TAG_SIZE] == TAG;
      assert s == Encode(q)[..|s|] == TAG[..|s|];
    }
  }

  lemma {:induction false} HeaderIsExamined(buf: seq<byte>)
    requires HEADER_SIZE + TAG_SIZE <= |buf| && LengthFits(buf)
    ensures Begins(buf[..HEADER_SIZE]) <==>
            buf[..TAG_SIZE] == TAG && 1 <= VersionOf(buf) <= 28 && DataSizeOf(buf) <= MAX_DATA_SIZE
  {
    if buf[..TAG_SIZE] == TAG && 1 <= VersionOf(buf) <= 28 && DataSizeOf(buf) <= MAX_DATA_SIZE {
      var p := HeaderBegins(buf, Zeros(DataSizeOf(buf)));
      BeginsWith(buf[..HEADER_SIZE], p);
    }
    if Begins(buf[..HEADER_SIZE]) {
      BeginningTells(buf, HEADER_SIZE);
    }
  }

  lemma {:induction false} FrameIsExamined(buf: seq<byte>, n: nat)
    requires HEADER_SIZE + TAG_SIZE <= |buf| && n == HEADER_SIZE + DataSizeOf(buf) && n + TAG_SIZE <= |buf|
    ensures Begins(buf[..n + TAG_SIZE]) <==>
            buf[..TAG_SIZE] == TAG && 1 <= VersionOf(buf) <= 28 && n <= PACKET_SIZE && buf[n..n + TAG_SIZE] == TAG
  {
    if buf[..TAG_SIZE] == TAG && 1 <= VersionOf(buf) <= 28 && n <= PACKET_SIZE && buf[n..n + TAG_SIZE] == TAG {
      var p := HeaderBegins(buf, buf[HEADER_SIZE..n]);
      assert buf[..n + TAG_SIZE] == buf[..HEADER_SIZE] + buf[HEADER_SIZE..n] + TAG;
      BeginsWith(buf[..n + TAG_SIZE], p);
    }
    if Begins(buf[..n + TAG_SIZE]) {
      BeginningTells(buf, n + TAG_SIZE);
    }
  }

  /** The verdict, exactly: a pop reports an error if and only if the bytes it has looked at begin no frame of a
      packet of a supported version, and succeeds if and only if they are such a frame. So garbage is never waited
      on. */
  lemma {:induction false} VerdictIsExact(buf: seq<byte>)
    requires HEADER_SIZE + TAG_SIZE <= |buf| ==> LengthFits(buf)
    ensures Next(buf).DataError? || Next(buf).VersionError? <==> !Begins(buf[..Examined(buf)])
    ensures Next(buf).Taken? <==>
            23 <= |buf| && 23 + DataSizeOf(buf) <= |buf| && Begins(buf[..Examined(buf)])
  {
    if |buf| < TAG_SIZE {
      TagBegins([]);
    } else if |buf| < HEADER_SIZE + TAG_SIZE {
      TagBegins(buf[..TAG_SIZE]);
    } else {
      SumFits(DataSizeOf(buf));
      HeaderIsExamined(buf);
      if HEADER_SIZE + DataSizeOf(buf) + TAG_SIZE <= |buf| {
        FrameIsExamined(buf, HEADER_SIZE + DataSizeOf(buf));
      }
    }
  }

  /** Which error it is, whatever comes later: five bytes that are not the opening tag, a length over the limit and a
      wrong closing tag are data errors; a version out of range is a version error that names it. */
  lemma {:induction false} PopRejects(buf: seq<byte>, more: seq<byte>)
    ensures 5 <= |buf| && buf[..5] != [83, 85, 80, 76, 65] ==> Next(buf + more) == DataError
    ensures 23 <= |buf| && buf[..5] == [83, 85, 80, 76, 65] ==>
              && (buf[5] < 1 || buf[5] > 28 ==> Next(buf + more) == VersionError(buf[5]))
              && (1 <= buf[5] <= 28 && 10240 < U32At(buf, 14) < 0xFFFF_FFEE ==> Next(buf + more) == DataError)
              && (1 <= buf[5] <= 28 && U32At(buf, 14) <= 10240 && 23 + U32At(buf, 14) <= |buf|
                  && buf[18 + U32At(buf, 14)..23 + U32At(buf, 14)] != [83, 85, 80, 76, 65] ==>
                    Next(buf + more) == DataError)
  {
    if Next(buf) != NeedMore {
      NextIsFinal(buf, more);
    }
    if HEADER_SIZE <= |buf| {
      SumFits(DataSizeOf(buf));
    }
  }

  /** With a length field that wraps the sum, the verdict falls at once, by the bytes where the sum points. */
  lemma {:induction false} WrappedVerdict(buf: seq<byte>)
    requires 23 <= |buf| && buf[..5] == TAG && 1 <= buf[5] <= 28 && U32At(buf, 14) >= 0xFFFF_FFEE
    ensures var n := U32At(buf, 14) - 0xFFFF_FFEE;
            Next(buf) == if buf[n..n + 5] == [83, 85, 80, 76, 65] then Taken(n) else DataError
  {
  }

  /** A pop that waits with the header there, before any byte of the closing tag, waits for good reason: some bytes
      complete the frame. */
  lemma {:induction false} WaitingCanSucceed(buf: seq<byte>) returns (more: seq<byte>)
    requires Next(buf) == NeedMore && 23 <= |buf| <= 18 + DataSizeOf(buf)
    ensures Next(buf + more) == Taken(18 + DataSizeOf(buf))
  {
    var rest: seq<byte> := Zeros(18 + DataSizeOf(buf) - |buf|);
    more := rest + TAG;
    var p := HeaderBegins(buf, buf[HEADER_SIZE..] + rest);
    assert buf + more == Encode(p) + [];
    NextOfEncode(p, []);
  }
}
