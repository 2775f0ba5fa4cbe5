/** Exactly the gzip members are accepted, each for what it says, and a file of members is
    walked back into the bytes that were cut into them. */
module GzipTheorems {
  import opened Options
  import opened Bits
  import opened DeflateFormat
  import opened DeflateTheorems
  import opened Gzip
  import D = DeflateDecoder

  // ---- one member -----------------------------------------------------------------------------

  lemma StreamIsSomething(bs: seq<Block>)
    requires ValidStream(bs)
    ensures |EncodeStream(bs)| > 0
  {
    hide BlockBody, Aligned;
  }

  lemma StreamPrefix(e: BitString, data: seq<Byte>, used: nat)
    requires used == (|e| + 7) / 8 <= |data|
    ensures e <= StreamBits(data) <==> e <= StreamBits(data[..used])
  {
    hide StreamBits;
    StreamBitsConcat(data[..used], data[used..]);
    assert data[..used] + data[used..] == data;
    var a, all := StreamBits(data[..used]), StreamBits(data);
    assert a == all[..|a|] && |e| <= |a|;
    if e <= all {
      assert e == all[..|e|] == a[..|e|];
    }
  }

  lemma InflatesBody(body: seq<Byte>, bs: seq<Block>, out: seq<Byte>, tail: seq<Byte>, cap: nat)
    requires Compresses(body, bs, out) && |out| <= cap
    ensures D.Inflate(body + tail, cap) == D.Ok(D.Inflated(out, |body|)) && body != []
  {
    hide EncodeStream, StreamMeaning, StreamBits, D.Inflate, ValidBlocks, Aligned;
    StreamIsSomething(bs);
    assert (body + tail)[..|body|] == body;
    StreamPrefix(EncodeStream(bs), body + tail, |body|);
    StreamRoundTrip(bs, body + tail, cap);
  }

  lemma BodyInflated(data: seq<Byte>, cap: nat) returns (bs: seq<Block>)
    requires D.Inflate(data, cap).Ok?
    ensures var r := D.Inflate(data, cap).value;
      0 < r.consumed <= |data| && Compresses(data[..r.consumed], bs, r.out) && |r.out| <= cap
  {
    hide EncodeStream, StreamMeaning, StreamBits, D.Inflate, ValidBlocks, Aligned;
    bs := StreamSound(data, cap);
    StreamIsSomething(bs);
    StreamPrefix(EncodeStream(bs), data, D.Inflate(data, cap).value.consumed);
  }

  /** A member at the front of the data is read for what it says, and its length is known,
      whatever follows. */
  lemma MemberRead(m: seq<Byte>, out: seq<Byte>, tail: seq<Byte>, cap: nat)
    requires IsMember(m, out) && |out| <= cap && cap > 0
    ensures Gunzip(m + tail, cap) == Ok(Member(out, |m|)) && |m| >= 18
  {
    hide Compresses, HeaderBytes, Trailer, D.Inflate, BodyStart;
    var h, body, bs :| MemberIs(m, h, body, bs, out);
    var data, at := m + tail, |HeaderBytes(h)|;
    assert HeaderBytes(h) <= data;
    HeaderRead(h, data);
    assert data[at..] == body + (Trailer(out) + tail);
    InflatesBody(body, bs, out, Trailer(out) + tail, cap);
    assert data[at + |body|..at + |body| + 8] == Trailer(out);
  }

  /** Whatever is read is a member. */
  lemma ReadIsMember(data: seq<Byte>, cap: nat)
    requires Gunzip(data, cap).Ok?
    ensures var r := Gunzip(data, cap).value;
      cap > 0 && 18 <= r.consumed <= |data| && IsMember(data[..r.consumed], r.out) && |r.out| <= cap
  {
    hide Compresses, HeaderBytes, Trailer, D.Inflate, BodyStart;
    var at := BodyStart(data).value;
    var h := HeaderFound(data);
    var bs := BodyInflated(data[at..], cap);
    var i := D.Inflate(data[at..], cap).value;
    var e := at + i.consumed;
    assert data[at..][..i.consumed] == data[at..e];
    assert data[..e + 8] == data[..at] + data[at..e] + data[e..e + 8];
    assert MemberIs(data[..e + 8], h, data[at..e], bs, i.out);
  }

  /** Acceptance, exactly. */
  lemma GunzipIsExact(data: seq<Byte>, cap: nat, out: seq<Byte>, n: nat)
    ensures Gunzip(data, cap) == Ok(Member(out, n)) <==>
      cap > 0 && |out| <= cap && n <= |data| && IsMember(data[..n], out)
  {
    hide IsMember, Gunzip;
    if Gunzip(data, cap) == Ok(Member(out, n)) {
      ReadIsMember(data, cap);
    }
    if cap > 0 && |out| <= cap && n <= |data| && IsMember(data[..n], out) {
      MemberRead(data[..n], out, data[n..], cap);
      assert data[..n] + data[n..] == data;
    }
  }

  // ---- a file of members -------------------------------------------------------------------------

  /** The member loop of a package reader: each member is inflated behind the ones before it. */
  ghost function ReadMembers(data: seq<Byte>, cap: nat, out: seq<Byte>): Result<seq<Byte>>
    decreases |data|
  {
    if data == [] then Ok(out)
    else if |out| >= cap then Err(TooMany)
    else match Gunzip(data, cap - |out|)
      case Err(f) => Err(f)
      case Ok(m) =>
        if m.consumed == 0 || m.consumed > |data| then Err(Corrupt)
        else ReadMembers(data[m.consumed..], cap, out + m.out)
  }

  datatype Piece = Piece(bytes: seq<Byte>, out: seq<Byte>)

  ghost predicate AllMembers(ps: seq<Piece>) {
    forall p :: p in ps ==> IsMember(p.bytes, p.out)
  }

  function FileBytes(ps: seq<Piece>): seq<Byte> {
    if ps == [] then [] else ps[0].bytes + FileBytes(ps[1..])
  }

  function FileOutput(ps: seq<Piece>): seq<Byte> {
    if ps == [] then [] else ps[0].out + FileOutput(ps[1..])
  }

  /** There is room for each member, and some left, when its turn comes. */
  predicate RoomFor(ps: seq<Piece>, used: nat, cap: nat) {
    ps == [] || (used < cap && used + |ps[0].out| <= cap && RoomFor(ps[1..], used + |ps[0].out|, cap))
  }

  lemma {:induction false} MembersRead(ps: seq<Piece>, cap: nat, out: seq<Byte>)
    requires AllMembers(ps) && RoomFor(ps, |out|, cap)
    ensures ReadMembers(FileBytes(ps), cap, out) == Ok(out + FileOutput(ps))
    decreases |ps|
  {
    hide Gunzip, IsMember;
    if ps == [] {
      assert out + [] == out;
    } else {
      var p := ps[0];
      var rest := FileBytes(ps[1..]);
      MemberRead(p.bytes, p.out, rest, cap - |out|);
      assert (p.bytes + rest)[|p.bytes|..] == rest;
      MembersRead(ps[1..], cap, out + p.out);
      assert out + p.out + FileOutput(ps[1..]) == out + FileOutput(ps);
    }
  }

  lemma {:induction false} MembersFound(data: seq<Byte>, cap: nat, out: seq<Byte>) returns (ps: seq<Piece>)
    requires ReadMembers(data, cap, out).Ok?
    ensures AllMembers(ps) && RoomFor(ps, |out|, cap) && FileBytes(ps) == data
    ensures ReadMembers(data, cap, out).value == out + FileOutput(ps)
    decreases |data|
  {
    hide Gunzip, IsMember;
    if data == [] {
      ps := [];
      assert out + [] == out;
    } else {
      var m := Gunzip(data, cap - |out|).value;
      ReadIsMember(data, cap - |out|);
      var more := MembersFound(data[m.consumed..], cap, out + m.out);
      var p := Piece(data[..m.consumed], m.out);
      ps := [p] + more;
      assert ps[1..] == more;
      assert data[..m.consumed] + data[m.consumed..] == data;
      assert out + m.out + FileOutput(more) == out + FileOutput(ps);
    }
  }

  ghost predicate FileIs(ps: seq<Piece>, data: seq<Byte>, cap: nat, out: seq<Byte>) {
    AllMembers(ps) && RoomFor(ps, 0, cap) && FileBytes(ps) == data && FileOutput(ps) == out
  }

  /** A file is accepted exactly when it is a sequence of members with room for each, and then
      for the concatenation of what they hold. */
  lemma MembersAreExact(data: seq<Byte>, cap: nat, out: seq<Byte>)
    ensures ReadMembers(data, cap, []) == Ok(out) <==> exists ps :: FileIs(ps, data, cap, out)
  {
    hide ReadMembers, AllMembers, RoomFor, FileBytes, FileOutput;
    if ReadMembers(data, cap, []) == Ok(out) {
      var ps := MembersFound(data, cap, []);
      assert [] + FileOutput(ps) == FileOutput(ps);
      assert FileIs(ps, data, cap, out);
    }
    if ps :| FileIs(ps, data, cap, out) {
      MembersRead(ps, cap, []);
      assert [] + FileOutput(ps) == FileOutput(ps);
    }
  }
}
