/** gzip members (section 2.3 of RFC 1952): what a member is, how one is read, and that
    exactly the members are read. */
module Gzip {
  import opened Options
  import opened Bits
  import opened Words
  import opened DeflateFormat
  import opened DeflateTheorems
  import opened Checksums
  import opened Crc
  import D = DeflateDecoder

  datatype Failure = Invalid | Unsupported | Corrupt | TooMany

  datatype Result<+T> = Ok(value: T) | Err(failure: Failure)

  // ---- the grammar ------------------------------------------------------------------------

  /** The optional fields, in the order in which they are written, and the six bytes (time,
      extra flags, system) that are not looked at. */
  datatype GzipHeader = GzipHeader(
    text: bool, fixed: seq<Byte>, extra: Option<seq<Byte>>,
    name: Option<seq<Byte>>, comment: Option<seq<Byte>>, hcrc: Option<seq<Byte>>)

  predicate ValidHeader(h: GzipHeader) {
    && |h.fixed| == 6
    && (h.extra.Some? ==> |h.extra.value| < 0x1_0000)
    && (h.name.Some? ==> 0 !in h.name.value)
    && (h.comment.Some? ==> 0 !in h.comment.value)
    && (h.hcrc.Some? ==> |h.hcrc.value| == 2)
  }

  function FlagBits(h: GzipHeader): (s: BitString) {
    [h.text, h.hcrc.Some?, h.extra.Some?, h.name.Some?, h.comment.Some?]
  }

  function FlagByte(h: GzipHeader): (b: Byte)
    ensures b < 32
  {
    LsbValueBound(FlagBits(h));
    assert Pow2(5) == 32;
    LsbValue(FlagBits(h))
  }

  function ExtraField(x: Option<seq<Byte>>): seq<Byte>
    requires x.Some? ==> |x.value| < 0x1_0000
  {
    if x.Some? then LeBytes(|x.value|, 2) + x.value else []
  }

  function StringField(x: Option<seq<Byte>>): seq<Byte> {
    if x.Some? then x.value + [0] else []
  }

  function HcrcField(x: Option<seq<Byte>>): seq<Byte> {
    if x.Some? then x.value else []
  }

  function HeaderBytes(h: GzipHeader): (s: seq<Byte>)
    requires ValidHeader(h)
  {
    [0x1F, 0x8B, 8, FlagByte(h)] + h.fixed + ExtraField(h.extra) + StringField(h.name) + StringField(h.comment) + HcrcField(h.hcrc)
  }

  /** The check and the length modulo 2^32. */
  function Trailer(out: seq<Byte>): (s: seq<Byte>)
    ensures |s| == 8
  {
    LeBytes(Crc32(out, 0), 4) + LeBytes(|out| % 0x1_0000_0000, 4)
  }

  /** The bytes a DEFLATE stream occupies: its bits, and whatever fills the last byte. */
  ghost predicate Compresses(body: seq<Byte>, bs: seq<Block>, out: seq<Byte>) {
    && ValidStream(bs) && EncodeStream(bs) <= StreamBits(body)
    && |body| == (|EncodeStream(bs)| + 7) / 8
    && StreamMeaning(bs, []) == Some(out)
  }

  ghost predicate MemberIs(m: seq<Byte>, h: GzipHeader, body: seq<Byte>, bs: seq<Block>, out: seq<Byte>) {
    ValidHeader(h) && Compresses(body, bs, out) && m == HeaderBytes(h) + body + Trailer(out)
  }

  ghost predicate IsMember(m: seq<Byte>, out: seq<Byte>) {
    exists h, body, bs :: MemberIs(m, h, body, bs, out)
  }

  // ---- reading ----------------------------------------------------------------------------

  /** Bit `k` of the flag byte. */
  predicate FlagSet(flags: Byte, k: nat)
    requires k < 5
  {
    LsbBits(flags, 5)[k]
  }

  /** One past the first zero byte at or after `at`, or one past the end. */
  function AfterZero(data: seq<Byte>, at: nat): (r: nat)
    requires at <= |data|
    ensures at < r <= |data| + 1
    decreases |data| - at
  {
    if at < |data| && data[at] != 0 then AfterZero(data, at + 1) else at + 1
  }

  /** A zero-terminated field; past the end there is nothing to look at. */
  function AfterString(data: seq<Byte>, at: nat): (r: nat)
    ensures at < r
  {
    if at <= |data| then AfterZero(data, at) else at + 1
  }

  /** Where the compressed data begins, or nothing when the extra field overruns. */
  function BodyStart(data: seq<Byte>): (r: Option<nat>)
    requires |data| >= 10
    ensures r.Some? ==> r.value >= 10
  {
    var flags := data[3];
    if FlagSet(flags, 2) && |data| < 12 then None
    else
      var xlen := if FlagSet(flags, 2) then LeValue(data[10..12]) else 0;
      if FlagSet(flags, 2) && |data| - 12 < xlen then None
      else
        var a := if FlagSet(flags, 2) then 12 + xlen else 10;
        var b := if FlagSet(flags, 3) then AfterString(data, a) else a;
        var c := if FlagSet(flags, 4) then AfterString(data, b) else b;
        Some(if FlagSet(flags, 1) then c + 2 else c)
  }

  datatype Member = Member(out: seq<Byte>, consumed: nat)

  function FromInflate(s: D.Status): Failure {
    match s
    case Corrupt => Failure.Corrupt
    case TooMany => Failure.TooMany
  }

  /** One member off the front of `data`, into at most `cap` bytes. */
  ghost function Gunzip(data: seq<Byte>, cap: nat): Result<Member> {
    if |data| < 18 || data[0] != 0x1F || data[1] != 0x8B then Err(Invalid)
    else if data[2] != 8 then Err(Unsupported)
    else if data[3] >= 32 || BodyStart(data).None? then Err(Corrupt)
    else if cap == 0 then Err(Invalid)
    else GunzipBody(data, BodyStart(data).value, cap)
  }

  ghost function GunzipBody(data: seq<Byte>, at: nat, cap: nat): Result<Member> {
    if at + 8 > |data| then Err(Corrupt)
    else match D.Inflate(data[at..], cap)
      case Err(s) => Err(FromInflate(s))
      case Ok(i) =>
        var e := at + i.consumed;
        if e + 8 > |data| then Err(Corrupt)
        else if data[e..e + 8] == Trailer(i.out) then Ok(Member(i.out, e + 8))
        else Err(Corrupt)
  }

  // ---- the header, both ways -----------------------------------------------------------------

  lemma FlagsOfHeader(h: GzipHeader)
    ensures FlagSet(FlagByte(h), 1) == h.hcrc.Some? && FlagSet(FlagByte(h), 2) == h.extra.Some?
    ensures FlagSet(FlagByte(h), 3) == h.name.Some? && FlagSet(FlagByte(h), 4) == h.comment.Some?
  {
    LsbBitsOfValue(FlagBits(h));
  }

  lemma HeaderOfFlags(flags: Byte, h: GzipHeader)
    requires flags < 32 && FlagBits(h) == LsbBits(flags, 5)
    ensures FlagByte(h) == flags
  {
    assert Pow2(5) == 32;
    LsbValueOfBits(flags, 5);
  }

  /** A zero-terminated field ends where the reader says. */
  lemma {:induction false} AfterZeroIs(data: seq<Byte>, at: nat, n: nat)
    requires at + n < |data| && data[at + n] == 0 && 0 !in data[at..at + n]
    ensures AfterZero(data, at) == at + n + 1
    decreases n
  {
    if n > 0 {
      assert data[at] == data[at..at + n][0];
      assert data[at + 1..at + n] == data[at..at + n][1..];
      AfterZeroIs(data, at + 1, n - 1);
    }
  }

  lemma {:induction false} AfterZeroMeans(data: seq<Byte>, at: nat)
    requires at <= |data| && AfterZero(data, at) <= |data|
    ensures var r := AfterZero(data, at); data[r - 1] == 0 && 0 !in data[at..r - 1]
    decreases |data| - at
  {
    if data[at] != 0 {
      AfterZeroMeans(data, at + 1);
      var r := AfterZero(data, at);
      assert data[at..r - 1] == [data[at]] + data[at + 1..r - 1];
    }
  }

  lemma StringFieldRead(data: seq<Byte>, at: nat, x: Option<seq<Byte>>)
    requires At(data, at, StringField(x)) && (x.Some? ==> 0 !in x.value)
    ensures (if x.Some? then AfterString(data, at) else at) == at + |StringField(x)|
  {
    if x.Some? {
      var n := |x.value|;
      assert data[at + n] == StringField(x)[n];
      assert data[at..at + n] == StringField(x)[..n] == x.value;
      AfterZeroIs(data, at, n);
    }
  }

  lemma StringFieldFound(data: seq<Byte>, at: nat, present: bool) returns (x: Option<seq<Byte>>)
    requires (if present then AfterString(data, at) else at) <= |data|
    ensures x.Some? == present && At(data, at, StringField(x)) && (x.Some? ==> 0 !in x.value)
    ensures (if present then AfterString(data, at) else at) == at + |StringField(x)|
  {
    if present {
      AfterZeroMeans(data, at);
      var r := AfterZero(data, at);
      x := Some(data[at..r - 1]);
      assert data[at..r] == data[at..r - 1] + [data[r - 1]];
    } else {
      x := None;
      assert data[at..at] == [];
    }
  }

  lemma ExtraFieldRead(data: seq<Byte>, x: Option<seq<Byte>>)
    requires x.Some? ==> |x.value| < 0x1_0000
    requires At(data, 10, ExtraField(x)) && x.Some?
    ensures |data| >= 12 && LeValue(data[10..12]) == |x.value| && 12 + |x.value| == 10 + |ExtraField(x)| <= |data|
  {
    PowersOfTwo();
    assert data[10..12] == ExtraField(x)[..2] == LeBytes(|x.value|, 2);
    LeValueOfBytes(|x.value|, 2);
  }

  lemma ExtraFieldFound(data: seq<Byte>) returns (x: Option<seq<Byte>>)
    requires |data| >= 12 && |data| - 12 >= LeValue(data[10..12])
    ensures x.Some? && |x.value| < 0x1_0000 && At(data, 10, ExtraField(x))
    ensures 12 + LeValue(data[10..12]) == 10 + |ExtraField(x)|
  {
    PowersOfTwo();
    var n := LeValue(data[10..12]);
    LeBytesOfValue(data[10..12]);
    x := Some(data[12..12 + n]);
    assert data[10..12 + n] == data[10..12] + data[12..12 + n];
  }

  /** Fields one after another are found one after another. */
  lemma Laid(p: seq<Byte>, x: seq<Byte>, n: seq<Byte>, c: seq<Byte>, k: seq<Byte>, data: seq<Byte>)
    ensures p + x + n + c + k <= data <==>
      && At(data, 0, p) && At(data, |p|, x) && At(data, |p + x|, n) && At(data, |p + x + n|, c) && At(data, |p + x + n + c|, k)
  {
    var s := p + x + n + c + k;
    if s <= data {
      assert data[..|s|] == s;
    }
    if At(data, 0, p) && At(data, |p|, x) && At(data, |p + x|, n) && At(data, |p + x + n|, c) && At(data, |p + x + n + c|, k) {
      assert data[..|p + x|] == p + x;
      assert data[..|p + x + n|] == p + x + n;
      assert data[..|p + x + n + c|] == p + x + n + c;
      assert data[..|s|] == s;
    }
  }

  /** The four bytes and six that every header begins with. */
  function Start(h: GzipHeader): seq<Byte> {
    [0x1F, 0x8B, 8, FlagByte(h)] + h.fixed
  }

  predicate StartsLikeGzip(data: seq<Byte>) {
    |data| >= 10 && data[0] == 0x1F && data[1] == 0x8B && data[2] == 8 && data[3] < 32
  }

  /** The reader finds the end of every header it is given. */
  lemma HeaderRead(h: GzipHeader, data: seq<Byte>)
    requires ValidHeader(h) && HeaderBytes(h) <= data
    ensures StartsLikeGzip(data) && BodyStart(data) == Some(|HeaderBytes(h)|)
  {
    hide FlagSet, FlagByte, ExtraField, StringField, HcrcField, AfterString;
    Laid(Start(h), ExtraField(h.extra), StringField(h.name), StringField(h.comment), HcrcField(h.hcrc), data);
    StartRead(h, data);
    FlagsOfHeader(h);
    hide At;
    if h.extra.Some? {
      ExtraFieldRead(data, h.extra);
    }
    var a := 10 + |ExtraField(h.extra)|;
    StringFieldRead(data, a, h.name);
    StringFieldRead(data, a + |StringField(h.name)|, h.comment);
    FieldLengths(h);
  }

  lemma StartRead(h: GzipHeader, data: seq<Byte>)
    requires ValidHeader(h) && At(data, 0, Start(h))
    ensures StartsLikeGzip(data) && data[3] == FlagByte(h) && data[4..10] == h.fixed
  {
    hide FlagByte;
    assert Start(h)[3] == FlagByte(h);
    assert data[4..10] == data[0..10][4..];
  }

  lemma FieldLengths(h: GzipHeader)
    requires ValidHeader(h)
    ensures h.extra.None? ==> ExtraField(h.extra) == []
    ensures |HcrcField(h.hcrc)| == if h.hcrc.Some? then 2 else 0
    ensures |Start(h)| == 10
    ensures |HeaderBytes(h)|
      == 10 + |ExtraField(h.extra)| + |StringField(h.name)| + |StringField(h.comment)| + |HcrcField(h.hcrc)|
  {
  }

  /** What the reader skips is a header. */
  lemma HeaderFound(data: seq<Byte>) returns (h: GzipHeader)
    requires StartsLikeGzip(data)
    requires BodyStart(data).Some? && BodyStart(data).value <= |data|
    ensures ValidHeader(h) && HeaderBytes(h) <= data && |HeaderBytes(h)| == BodyStart(data).value
  {
    hide FlagSet, FlagByte, FlagBits, ExtraField, StringField, HcrcField, AfterString, At, LsbBits, LeValue;
    var flags := data[3];
    var x := None;
    if FlagSet(flags, 2) {
      x := ExtraFieldFound(data);
    } else {
      x := NoField(data);
    }
    var a := 10 + |ExtraField(x)|;
    var name := StringFieldFound(data, a, FlagSet(flags, 3));
    var b := a + |StringField(name)|;
    var comment := StringFieldFound(data, b, FlagSet(flags, 4));
    var c := b + |StringField(comment)|;
    var hcrc := HcrcFound(data, c, FlagSet(flags, 1));
    h := GzipHeader(FlagSet(flags, 0), data[4..10], x, name, comment, hcrc);
    FlagBitsFound(flags, h);
    HeaderOfFlags(flags, h);
    StartFound(data, h);
    FieldLengths(h);
    Laid(Start(h), ExtraField(x), StringField(name), StringField(comment), HcrcField(hcrc), data);
  }

  lemma NoField(data: seq<Byte>) returns (x: Option<seq<Byte>>)
    requires |data| >= 10
    ensures x.None? && ExtraField(x) == [] && At(data, 10, ExtraField(x))
  {
    x := None;
    assert data[10..10] == [];
  }

  lemma HcrcFound(data: seq<Byte>, at: nat, present: bool) returns (x: Option<seq<Byte>>)
    requires at + (if present then 2 else 0) <= |data|
    ensures x.Some? == present && (x.Some? ==> |x.value| == 2)
    ensures At(data, at, HcrcField(x)) && |HcrcField(x)| == if present then 2 else 0
  {
    x := if present then Some(data[at..at + 2]) else None;
    assert data[at..at] == [];
  }

  lemma FlagBitsFound(flags: Byte, h: GzipHeader)
    requires h.text == FlagSet(flags, 0) && h.hcrc.Some? == FlagSet(flags, 1) && h.extra.Some? == FlagSet(flags, 2)
    requires h.name.Some? == FlagSet(flags, 3) && h.comment.Some? == FlagSet(flags, 4)
    ensures FlagBits(h) == LsbBits(flags, 5)
  {
  }

  lemma StartFound(data: seq<Byte>, h: GzipHeader)
    requires StartsLikeGzip(data) && FlagByte(h) == data[3] && h.fixed == data[4..10]
    ensures At(data, 0, Start(h))
  {
    hide FlagByte;
    assert data[0..10] == data[..4] + data[4..10];
  }
}
