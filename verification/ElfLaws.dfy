/** What loading an executable means, in the numbers of its segments: which images are refused,
    what every byte of memory is afterwards, and what every page may be used for. */
module ElfLaws {
  import opened Bits
  import opened ElfModel

  // ---- protection ---------------------------------------------------------------------------------

  /** Bit 1 of the flag word makes a page writable and bit 0 executable; nothing else counts. */
  lemma FlagsMean(s: Segment)
    ensures FlagsOf(s).exec <==> s.flags % 2 == 1
    ensures FlagsOf(s).writable <==> s.flags / 2 % 2 == 1
  {
    var a, b := s.flags / 2, s.flags / 2 / 2;
    BitAndZero(a);
    BitAndZero(b);
    assert BitAnd(s.flags, 1) == s.flags % 2 + 2 * BitAnd(a, 0);
    assert BitAnd(s.flags, 2) == 2 * BitAnd(a, 1);
    assert BitAnd(a, 1) == a % 2 + 2 * BitAnd(b, 0);
  }

  // ---- what is refused ----------------------------------------------------------------------------

  /** A segment that loads, by type and size. */
  predicate Wanted(s: Segment) {
    s.kind == 1 && s.memsz > 0
  }

  /** The file range is inside the file and no longer than the memory range, which begins below
      2^44. */
  predicate Proper(s: Segment, size: nat) {
    s.offset + s.filesz <= size && s.filesz <= s.memsz && s.vaddr < 0x1000_0000_0000
  }

  /** Page `p` is touched by the memory range of `s`. */
  predicate Touches(s: Segment, p: nat) {
    s.vaddr < 4096 * (p + 1) && 4096 * p < s.vaddr + s.memsz
  }

  /** The pages that all wanted segments together touch. */
  function PagesNeeded(segs: seq<Segment>): nat {
    if segs == [] then 0
    else
      var s := segs[0];
      (if Wanted(s) then (s.vaddr + s.memsz + 4095) / 4096 - s.vaddr / 4096 else 0) + PagesNeeded(segs[1..])
  }

  /** No page is touched twice, and none that is mapped already. */
  ghost predicate Apart(segs: seq<Segment>, used: set<nat>) {
    && (forall i, p :: 0 <= i < |segs| && Wanted(segs[i]) && Touches(segs[i], p) ==> p !in used)
    && (forall i, j, p :: 0 <= i < j < |segs| && Wanted(segs[i]) && Wanted(segs[j]) && Touches(segs[i], p) ==>
          !Touches(segs[j], p))
  }

  lemma TouchedPages(s: Segment, p: nat)
    requires Wanted(s)
    ensures p in Range(FirstPage(s), EndPage(s)) <==> Touches(s, p)
    ensures |Range(FirstPage(s), EndPage(s))| == (s.vaddr + s.memsz + 4095) / 4096 - s.vaddr / 4096
  {
  }

  lemma ProperMeans(s: Segment, file: seq<Byte>)
    ensures Loads(s) <==> Wanted(s)
    ensures Acceptable(s, file) <==> Proper(s, |file|)
  {
  }

  lemma ApartFirst(segs: seq<Segment>, used: set<nat>, range: set<nat>)
    requires segs != [] && Wanted(segs[0])
    requires forall p: nat :: p in range <==> Touches(segs[0], p)
    ensures Apart(segs, used) <==> range !! used && Apart(segs[1..], used + range)
  {
    hide *;
    ApartRest(segs, used, range);
    if range !! used && Apart(segs[1..], used + range) {
      ApartBoth(segs, used, range);
    }
  }

  lemma ApartRest(segs: seq<Segment>, used: set<nat>, range: set<nat>)
    requires segs != [] && Wanted(segs[0])
    requires forall p: nat :: p in range <==> Touches(segs[0], p)
    ensures Apart(segs, used) ==> range !! used && Apart(segs[1..], used + range)
  {
    hide Touches, Wanted;
    if Apart(segs, used) {
      assert forall p: nat :: p in range ==> p !in used;
      forall i, p | 0 <= i < |segs[1..]| && Wanted(segs[1..][i]) && Touches(segs[1..][i], p)
        ensures p !in used + range
      {
        assert segs[1..][i] == segs[i + 1];
      }
      forall i, j, p | 0 <= i < j < |segs[1..]| && Wanted(segs[1..][i]) && Wanted(segs[1..][j]) &&
          Touches(segs[1..][i], p)
        ensures !Touches(segs[1..][j], p)
      {
        assert segs[1..][i] == segs[i + 1] && segs[1..][j] == segs[j + 1];
      }
    }
  }

  lemma ApartBoth(segs: seq<Segment>, used: set<nat>, range: set<nat>)
    requires segs != [] && Wanted(segs[0])
    requires forall p: nat :: p in range <==> Touches(segs[0], p)
    requires range !! used && Apart(segs[1..], used + range)
    ensures Apart(segs, used)
  {
    hide Touches, Wanted;
    var rest := segs[1..];
    forall i, p | 0 <= i < |segs| && Wanted(segs[i]) && Touches(segs[i], p)
      ensures p !in used
    {
      if i > 0 {
        assert segs[i] == rest[i - 1];
      }
    }
    forall i, j, p | 0 <= i < j < |segs| && Wanted(segs[i]) && Wanted(segs[j]) && Touches(segs[i], p)
      ensures !Touches(segs[j], p)
    {
      assert segs[j] == rest[j - 1];
      if i > 0 {
        assert segs[i] == rest[i - 1];
      }
    }
  }

  lemma ApartSkips(segs: seq<Segment>, used: set<nat>)
    requires segs != [] && !Wanted(segs[0])
    ensures Apart(segs, used) <==> Apart(segs[1..], used)
  {
    hide Touches, Wanted;
    var rest := segs[1..];
    assert forall i :: 0 < i < |segs| ==> segs[i] == rest[i - 1];
    assert forall i :: 0 <= i < |rest| ==> rest[i] == segs[i + 1];
  }

  /** Every wanted segment is proper. */
  ghost predicate AllProper(segs: seq<Segment>, size: nat) {
    forall i :: 0 <= i < |segs| && Wanted(segs[i]) ==> Proper(segs[i], size)
  }

  lemma ProperOneByOne(segs: seq<Segment>, size: nat)
    requires segs != []
    ensures AllProper(segs, size) <==> (Wanted(segs[0]) ==> Proper(segs[0], size)) && AllProper(segs[1..], size)
  {
    hide Proper, Wanted;
    var rest := segs[1..];
    assert forall i :: 0 < i < |segs| ==> segs[i] == rest[i - 1];
    assert forall i :: 0 <= i < |rest| ==> rest[i] == segs[i + 1];
  }

  lemma {:induction false} DisjointMeans(segs: seq<Segment>, file: seq<Byte>, used: set<nat>)
    ensures Disjoint(segs, file, used) <==> AllProper(segs, |file|) && Apart(segs, used)
  {
    if segs != [] {
      var s, range := segs[0], Range(FirstPage(segs[0]), EndPage(segs[0]));
      ProperMeans(s, file);
      ProperOneByOne(segs, |file|);
      if Wanted(s) {
        forall p: nat ensures p in range <==> Touches(s, p) {
          TouchedPages(s, p);
        }
        ApartFirst(segs, used, range);
        DisjointMeans(segs[1..], file, used + range);
        hide Touches, Range, Proper, FirstPage, EndPage, Apart, AllProper, Wanted, Loads, Acceptable;
      } else {
        ApartSkips(segs, used);
        DisjointMeans(segs[1..], file, used);
        hide Touches, Range, Proper, FirstPage, EndPage, Apart, AllProper, Wanted, Loads, Acceptable;
      }
    }
  }

  lemma {:induction false} NeededIs(segs: seq<Segment>, file: seq<Byte>, used: set<nat>)
    requires Disjoint(segs, file, used)
    ensures |AllPages(segs)| == PagesNeeded(segs)
  {
    if segs != [] {
      var s, range := segs[0], Range(FirstPage(segs[0]), EndPage(segs[0]));
      ProperMeans(s, file);
      if Wanted(s) {
        FirstAndRest(segs, file, used);
        TouchedPages(s, 0);
        NeededIs(segs[1..], file, used + range);
      } else {
        NeededIs(segs[1..], file, used);
      }
    }
  }

  /** An image is loaded exactly when it has a segment to load, every such segment is proper, no
      page is touched twice or mapped already, and there is a frame for every page. */
  lemma LoadedExactlyWhen(sp: Space, segs: seq<Segment>, file: seq<Byte>)
    ensures ElfLoad(sp, segs, file).Ok? <==>
      && (exists i :: 0 <= i < |segs| && Wanted(segs[i]))
      && (forall i :: 0 <= i < |segs| && Wanted(segs[i]) ==> Proper(segs[i], |file|))
      && Apart(segs, sp.pages.Keys) && PagesNeeded(segs) <= |sp.supply|
  {
    LoadsExactly(sp, segs, file);
    DisjointMeans(segs, file, sp.pages.Keys);
    if Disjoint(segs, file, sp.pages.Keys) {
      NeededIs(segs, file, sp.pages.Keys);
    }
    SomeWanted(segs, file);
    hide LoadSegments, Disjoint, AllPages, PagesNeeded, Apart, Proper, Wanted, Loads;
  }

  lemma SomeWanted(segs: seq<Segment>, file: seq<Byte>)
    ensures (exists s :: s in segs && Loads(s)) <==> exists i :: 0 <= i < |segs| && Wanted(segs[i])
  {
    if s :| s in segs && Loads(s) {
      var i :| 0 <= i < |segs| && segs[i] == s;
      assert Wanted(segs[i]);
    }
    if i :| 0 <= i < |segs| && Wanted(segs[i]) {
      assert segs[i] in segs && Loads(segs[i]);
    }
  }

  // ---- what is there afterwards ---------------------------------------------------------------------

  /** On every page a loaded segment touches there is, byte for byte, the file where the segment
      has bytes of the file and zero everywhere else, and the page may be written and executed
      exactly as the segment's flag word says. */
  lemma EveryByteAfter(sp: Space, segs: seq<Segment>, file: seq<Byte>, i: nat, a: nat)
    requires Sane(sp) && ElfLoad(sp, segs, file).Ok?
    requires i < |segs| && Wanted(segs[i]) && Touches(segs[i], a / 4096)
    ensures var s, r := segs[i], ElfLoad(sp, segs, file).space;
      && a / 4096 in r.pages && r.pages[a / 4096].frame in r.memory
      && (r.pages[a / 4096].flags.exec <==> s.flags % 2 == 1)
      && (r.pages[a / 4096].flags.writable <==> s.flags / 2 % 2 == 1)
      && |r.memory[r.pages[a / 4096].frame]| == 4096 && s.offset + s.filesz <= |file|
      && r.memory[r.pages[a / 4096].frame][a % 4096]
           == if s.vaddr <= a < s.vaddr + s.filesz then file[s.offset + (a - s.vaddr)] else 0
  {
    var s, p := segs[i], a / 4096;
    TouchedPages(s, p);
    LoadedImage(sp, segs, file, i, a);
    SegmentsShow(sp, segs, file, i, p);
    FlagsMean(s);
    hide LoadSegments, PageImage, FlagsOf;
  }

  /** Nothing else changes: the pages mapped are those from before, as they were, and the pages
      touched. */
  lemma NothingElseAfter(sp: Space, segs: seq<Segment>, file: seq<Byte>, p: nat)
    requires Sane(sp) && ElfLoad(sp, segs, file).Ok?
    ensures var r := ElfLoad(sp, segs, file).space;
      && Keeps(sp, r)
      && (p in r.pages <==> p in sp.pages || exists i :: 0 <= i < |segs| && Wanted(segs[i]) && Touches(segs[i], p))
  {
    SegmentsShow(sp, segs, file, |segs|, p);
    LoadsExactly(sp, segs, file);
    PagesTouched(segs, p);
    hide LoadSegments, Keeps, AllPages, Disjoint, Touches, Wanted;
  }

  lemma {:induction false} PagesTouched(segs: seq<Segment>, p: nat)
    ensures p in AllPages(segs) <==> exists i :: 0 <= i < |segs| && Wanted(segs[i]) && Touches(segs[i], p)
  {
    if segs != [] {
      var s := segs[0];
      PagesTouched(segs[1..], p);
      ProperMeans(s, []);
      if Wanted(s) {
        TouchedPages(s, p);
      }
      hide Touches, Wanted, Range, FirstPage, EndPage, Loads;
      assert forall i :: 0 < i < |segs| ==> segs[i] == segs[1..][i - 1];
      if i :| 0 <= i < |segs[1..]| && Wanted(segs[1..][i]) && Touches(segs[1..][i], p) {
        assert segs[i + 1] == segs[1..][i];
      }
    }
  }
}
