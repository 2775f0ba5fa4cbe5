/** Loading the segments of an executable: what memory holds when it succeeds, and exactly when
    it does. */
module ElfModel {
  import opened Bits

  const PAGE: nat := 4096
  const PT_LOAD: nat := 1
  const PF_X: nat := 1
  const PF_W: nat := 2
  const USER_LIMIT: nat := 0x1000_0000_0000

  datatype Flags = Flags(writable: bool, exec: bool)

  datatype Segment = Segment(kind: nat, flags: nat, offset: nat, vaddr: nat, filesz: nat, memsz: nat)

  datatype Mapping = Mapping(frame: nat, flags: Flags)

  /** Pages by page number, frames by frame number, and the frames still to be had. */
  datatype Space = Space(pages: map<nat, Mapping>, memory: map<nat, seq<Byte>>, supply: seq<nat>)

  /** `Stray` stands for a copy that would leave the file or the frame. */
  datatype Status = Invalid | NoMemory | Exists | Stray

  datatype Result = Ok(space: Space) | Err(status: Status)

  predicate Loads(s: Segment) {
    s.kind == PT_LOAD && s.memsz != 0
  }

  /** The file range lies in the file, it is not longer than the memory range, and the segment
      begins in the user part of the address space. */
  predicate Acceptable(s: Segment, file: seq<Byte>) {
    s.offset + s.filesz <= |file| && s.filesz <= s.memsz && s.vaddr / 4096 * 4096 < USER_LIMIT
  }

  function FirstPage(s: Segment): nat {
    s.vaddr / 4096
  }

  function EndPage(s: Segment): nat {
    (s.vaddr + s.memsz + 4095) / 4096
  }

  /** The protection a segment asks for, out of its flag word. */
  function FlagsOf(s: Segment): Flags {
    Flags(BitAnd(s.flags, PF_W) != 0, BitAnd(s.flags, PF_X) != 0)
  }

  // ---- the memory image -------------------------------------------------------------------------

  /** What the program is to find at an address of a segment's pages: a byte of the file, or
      zero. */
  function ImageByte(s: Segment, file: seq<Byte>, a: nat): Byte
    requires Acceptable(s, file)
  {
    if s.vaddr <= a < s.vaddr + s.filesz then file[s.offset + (a - s.vaddr)] else 0
  }

  function PageImage(s: Segment, file: seq<Byte>, page: nat): (b: seq<Byte>)
    requires Acceptable(s, file)
    ensures |b| == PAGE && forall i :: 0 <= i < PAGE ==> b[i] == ImageByte(s, file, 4096 * page + i)
  {
    ImageFrom(s, file, 4096 * page, PAGE)
  }

  function ImageFrom(s: Segment, file: seq<Byte>, a: nat, n: nat): (b: seq<Byte>)
    requires Acceptable(s, file)
    ensures |b| == n && forall i :: 0 <= i < n ==> b[i] == ImageByte(s, file, a + i)
    decreases n
  {
    if n == 0 then [] else [ImageByte(s, file, a)] + ImageFrom(s, file, a + 1, n - 1)
  }

  // ---- loading ----------------------------------------------------------------------------------

  /** A frame is taken, mapped where nothing is mapped yet, and filled. */
  function LoadPage(sp: Space, s: Segment, file: seq<Byte>, page: nat): Result
    requires Acceptable(s, file)
  {
    if sp.supply == [] then Err(NoMemory)
    else if page in sp.pages then Err(Exists)
    else
      var f := sp.supply[0];
      Ok(Space(sp.pages[page := Mapping(f, FlagsOf(s))], sp.memory[f := PageImage(s, file, page)], sp.supply[1..]))
  }

  function LoadPages(sp: Space, s: Segment, file: seq<Byte>, page: nat, end: nat): Result
    requires Acceptable(s, file)
    decreases end - page
  {
    if page >= end then Ok(sp)
    else match LoadPage(sp, s, file, page)
      case Err(e) => Err(e)
      case Ok(next) => LoadPages(next, s, file, page + 1, end)
  }

  function LoadSegments(sp: Space, segs: seq<Segment>, file: seq<Byte>): Result
    decreases |segs|
  {
    if segs == [] then Ok(sp)
    else
      var s := segs[0];
      if !Loads(s) then LoadSegments(sp, segs[1..], file)
      else if !Acceptable(s, file) then Err(Invalid)
      else match LoadPages(sp, s, file, FirstPage(s), EndPage(s))
        case Err(e) => Err(e)
        case Ok(next) => LoadSegments(next, segs[1..], file)
  }

  /** An image without a loaded segment is refused. */
  function ElfLoad(sp: Space, segs: seq<Segment>, file: seq<Byte>): Result {
    match LoadSegments(sp, segs, file)
    case Err(e) => Err(e)
    case Ok(r) => if exists s :: s in segs && Loads(s) then Ok(r) else Err(Invalid)
  }

  // ---- what the space is like -----------------------------------------------------------------------

  /** Frames still to be had are in no mapping and appear once. */
  ghost predicate Sane(sp: Space) {
    && (forall i, j :: 0 <= i < j < |sp.supply| ==> sp.supply[i] != sp.supply[j])
    && (forall p :: p in sp.pages ==> sp.pages[p].frame in sp.memory && sp.pages[p].frame !in sp.supply)
    && (forall p, q :: p in sp.pages && q in sp.pages && p != q ==> sp.pages[p].frame != sp.pages[q].frame)
  }

  /** Page `p` is mapped for segment `s` and holds its image. */
  ghost predicate Shows(sp: Space, s: Segment, file: seq<Byte>, p: nat)
    requires Acceptable(s, file)
  {
    p in sp.pages && sp.pages[p].flags == FlagsOf(s) && sp.pages[p].frame in sp.memory
    && sp.memory[sp.pages[p].frame] == PageImage(s, file, p)
  }

  /** Everything mapped before is mapped as before, with the same contents. */
  ghost predicate Keeps(a: Space, b: Space) {
    forall p :: p in a.pages ==>
      p in b.pages && b.pages[p] == a.pages[p]
      && (a.pages[p].frame in a.memory ==> b.pages[p].frame in b.memory && b.memory[b.pages[p].frame] == a.memory[a.pages[p].frame])
  }

  lemma KeepsShows(a: Space, b: Space, s: Segment, file: seq<Byte>, p: nat)
    requires Keeps(a, b) && Acceptable(s, file) && Shows(a, s, file, p)
    ensures Shows(b, s, file, p)
  {
  }

  lemma KeepsTrans(a: Space, b: Space, c: Space)
    requires Keeps(a, b) && Keeps(b, c)
    ensures Keeps(a, c)
  {
  }

  lemma PageLoaded(sp: Space, s: Segment, file: seq<Byte>, page: nat)
    requires Acceptable(s, file) && Sane(sp) && LoadPage(sp, s, file, page).Ok?
    ensures var r := LoadPage(sp, s, file, page).space;
      && Sane(r) && Keeps(sp, r) && Shows(r, s, file, page)
      && r.pages.Keys == sp.pages.Keys + {page} && page !in sp.pages && |r.supply| == |sp.supply| - 1
  {
    var f := sp.supply[0];
    assert f in sp.supply;
    hide PageImage;
    var r := LoadPage(sp, s, file, page).space;
    forall p | p in r.pages ensures r.pages[p].frame in r.memory && r.pages[p].frame !in r.supply {
      assert forall g :: g in sp.supply[1..] ==> g in sp.supply && g != f;
    }
  }

  /** The pages from `page` to `end`. */
  function Range(page: nat, end: nat): (r: set<nat>)
    ensures forall p :: p in r <==> page <= p < end
    ensures |r| == if page <= end then end - page else 0
    decreases end - page
  {
    if page >= end then {} else Range(page + 1, end) + {page}
  }

  lemma RangeStep(page: nat, end: nat)
    requires page < end
    ensures Range(page, end) == {page} + Range(page + 1, end) && page !in Range(page + 1, end)
    ensures |Range(page, end)| == 1 + |Range(page + 1, end)|
  {
  }

  /** A segment loads exactly when none of its pages is mapped and there are frames enough. */
  lemma {:induction false} PagesCount(sp: Space, s: Segment, file: seq<Byte>, page: nat, end: nat)
    requires Acceptable(s, file)
    ensures var x := LoadPages(sp, s, file, page, end);
      && (x.Ok? <==> Range(page, end) !! sp.pages.Keys && |Range(page, end)| <= |sp.supply|)
      && (x.Ok? ==> x.space.pages.Keys == sp.pages.Keys + Range(page, end) && |x.space.supply| == |sp.supply| - |Range(page, end)|)
    decreases end - page
  {
    if page >= end {
      assert Range(page, end) == {};
    } else {
      hide LoadPage, Range, Acceptable;
      LoadPageOk(sp, s, file, page);
      RangeStep(page, end);
      var one := LoadPage(sp, s, file, page);
      if one.Ok? {
        PagesCount(one.space, s, file, page + 1, end);
        OneMorePage(sp.pages.Keys, page, Range(page + 1, end));
      } else {
        assert page in Range(page, end);
      }
    }
  }

  lemma OneMorePage(keys: set<nat>, page: nat, rest: set<nat>)
    requires page !in keys && page !in rest
    ensures rest !! keys + {page} <==> {page} + rest !! keys
    ensures keys + {page} + rest == keys + ({page} + rest)
  {
  }

  /** Then all its pages show its image, and what was mapped before is as it was. */
  lemma {:induction false} PagesShow(sp: Space, s: Segment, file: seq<Byte>, page: nat, end: nat)
    requires Acceptable(s, file) && Sane(sp) && LoadPages(sp, s, file, page, end).Ok?
    ensures var r := LoadPages(sp, s, file, page, end).space;
      Sane(r) && Keeps(sp, r) && forall p :: page <= p < end ==> Shows(r, s, file, p)
    decreases end - page
  {
    hide LoadPage, Shows, Sane, Keeps, Acceptable;
    if page < end {
      var next := LoadPage(sp, s, file, page).space;
      PageLoaded(sp, s, file, page);
      PagesShow(next, s, file, page + 1, end);
      var r := LoadPages(next, s, file, page + 1, end).space;
      KeepsTrans(sp, next, r);
      KeepsShows(next, r, s, file, page);
    } else {
      KeepsItself(sp);
    }
  }

  lemma LoadPageOk(sp: Space, s: Segment, file: seq<Byte>, page: nat)
    requires Acceptable(s, file)
    ensures var x := LoadPage(sp, s, file, page);
      && (x.Ok? <==> page !in sp.pages && sp.supply != [])
      && (x.Ok? ==> x.space.pages.Keys == sp.pages.Keys + {page} && |x.space.supply| == |sp.supply| - 1)
  {
    hide PageImage;
  }

  lemma KeepsItself(sp: Space)
    ensures Keeps(sp, sp)
  {
  }

  // ---- the whole image --------------------------------------------------------------------------------

  /** The pages of all the segments that load. */
  function AllPages(segs: seq<Segment>): set<nat> {
    if segs == [] then {}
    else if Loads(segs[0]) then Range(FirstPage(segs[0]), EndPage(segs[0])) + AllPages(segs[1..])
    else AllPages(segs[1..])
  }

  /** Every segment that loads is acceptable, and shares no page with another or with what is
      mapped already. */
  ghost predicate Disjoint(segs: seq<Segment>, file: seq<Byte>, used: set<nat>) {
    segs == [] ||
    if Loads(segs[0]) then
      && Acceptable(segs[0], file) && Range(FirstPage(segs[0]), EndPage(segs[0])) !! used
      && Disjoint(segs[1..], file, used + Range(FirstPage(segs[0]), EndPage(segs[0])))
    else Disjoint(segs[1..], file, used)
  }

  lemma {:induction false} DisjointAvoids(segs: seq<Segment>, file: seq<Byte>, used: set<nat>)
    requires Disjoint(segs, file, used)
    ensures AllPages(segs) !! used
  {
    if segs != [] {
      var range := Range(FirstPage(segs[0]), EndPage(segs[0]));
      DisjointAvoids(segs[1..], file, if Loads(segs[0]) then used + range else used);
    }
  }

  lemma FirstAndRest(segs: seq<Segment>, file: seq<Byte>, used: set<nat>)
    requires segs != [] && Loads(segs[0]) && Disjoint(segs, file, used)
    ensures var range := Range(FirstPage(segs[0]), EndPage(segs[0]));
      |AllPages(segs)| == |range| + |AllPages(segs[1..])| && AllPages(segs) == range + AllPages(segs[1..])
  {
    var range := Range(FirstPage(segs[0]), EndPage(segs[0]));
    DisjointAvoids(segs[1..], file, used + range);
    UnionSize(range, AllPages(segs[1..]));
  }

  /** Loading succeeds exactly when the segments are acceptable, their pages disjoint and
      unmapped, and there are frames enough; and then exactly their pages are mapped besides. */
  lemma {:induction false} LoadsExactly(sp: Space, segs: seq<Segment>, file: seq<Byte>)
    ensures var x := LoadSegments(sp, segs, file);
      && (x.Ok? <==> Disjoint(segs, file, sp.pages.Keys) && |AllPages(segs)| <= |sp.supply|)
      && (x.Ok? ==> x.space.pages.Keys == sp.pages.Keys + AllPages(segs) && |x.space.supply| == |sp.supply| - |AllPages(segs)|)
    decreases |segs|
  {
    hide LoadPages, Acceptable, Loads, FirstPage, EndPage, Range;
    if segs != [] {
      var s := segs[0];
      if !Loads(s) {
        LoadsExactly(sp, segs[1..], file);
      } else if Acceptable(s, file) {
        PagesCount(sp, s, file, FirstPage(s), EndPage(s));
        var one := LoadPages(sp, s, file, FirstPage(s), EndPage(s));
        var range := Range(FirstPage(s), EndPage(s));
        if one.Ok? {
          LoadsExactly(one.space, segs[1..], file);
        }
        if Disjoint(segs, file, sp.pages.Keys) {
          FirstAndRest(segs, file, sp.pages.Keys);
        }
      }
    }
  }

  /** Every page of every segment shows the image of that segment, and what was mapped before
      is as it was. */
  lemma {:induction false} SegmentsShow(sp: Space, segs: seq<Segment>, file: seq<Byte>, i: nat, p: nat)
    requires Sane(sp) && LoadSegments(sp, segs, file).Ok?
    ensures var r := LoadSegments(sp, segs, file).space;
      && Sane(r) && Keeps(sp, r)
      && (i < |segs| && Loads(segs[i]) && FirstPage(segs[i]) <= p < EndPage(segs[i]) ==>
            Acceptable(segs[i], file) && Shows(r, segs[i], file, p))
    decreases |segs|
  {
    hide LoadPages, Shows, Sane, Keeps, Acceptable, Loads, FirstPage, EndPage;
    if segs == [] {
      KeepsItself(sp);
    } else {
      var s := segs[0];
      if !Loads(s) {
        SegmentsShow(sp, segs[1..], file, if i > 0 then i - 1 else |segs|, p);
      } else {
        PagesShow(sp, s, file, FirstPage(s), EndPage(s));
        var mid := LoadPages(sp, s, file, FirstPage(s), EndPage(s)).space;
        SegmentsShow(mid, segs[1..], file, if i > 0 then i - 1 else |segs|, p);
        var r := LoadSegments(mid, segs[1..], file).space;
        KeepsTrans(sp, mid, r);
        if i == 0 && FirstPage(s) <= p < EndPage(s) {
          KeepsShows(mid, r, s, file, p);
        }
      }
    }
  }

  lemma UnionSize(a: set<nat>, b: set<nat>)
    ensures a !! b ==> |a + b| == |a| + |b|
    ensures |a| <= |a + b|
  {
    assert a + b == a + (b - a);
  }

  /** Byte by byte: after a load, memory holds the file's byte inside a segment's file range and
      zero elsewhere on its pages. */
  lemma LoadedImage(sp: Space, segs: seq<Segment>, file: seq<Byte>, i: nat, a: nat)
    requires Sane(sp) && ElfLoad(sp, segs, file).Ok? && i < |segs| && Loads(segs[i])
    requires FirstPage(segs[i]) <= a / 4096 < EndPage(segs[i])
    ensures var r := ElfLoad(sp, segs, file).space;
      && Acceptable(segs[i], file) && a / 4096 in r.pages && r.pages[a / 4096].frame in r.memory
      && |r.memory[r.pages[a / 4096].frame]| == PAGE
      && r.memory[r.pages[a / 4096].frame][a % 4096] == ImageByte(segs[i], file, a)
  {
    var p, k := a / 4096, a % 4096;
    assert a == 4096 * p + k && k < 4096;
    SegmentsShow(sp, segs, file, i, p);
    hide LoadSegments, Acceptable, Sane, Keeps, FlagsOf, Loads, FirstPage, EndPage, ImageByte;
  }

  /** Every address of a loaded segment is on one of its pages. */
  lemma SegmentIsCovered(s: Segment, a: nat)
    requires s.vaddr <= a < s.vaddr + s.memsz
    ensures FirstPage(s) <= a / 4096 < EndPage(s)
  {
  }
}
