/** Whole sessions of the image builder: every file written under a new name is read back from
    the image, however much is written after it. */
module FatAgreement {
  import opened Options
  import opened Bits
  import opened FatNames
  import opened FatDirectories
  import opened FatDisks
  import opened FatModel

  datatype Op = MakeDirs(parts: seq<seq<Byte>>) | WriteFile(dirs: seq<seq<Byte>>, name: seq<Byte>, data: seq<Byte>)

  /** Directory names are legal 8.3 names, file names are within the reader's limit. */
  predicate Proper(op: Op) {
    match op
    case MakeDirs(parts) => AllNameable(parts) && AllLegal(parts)
    case WriteFile(dirs, name, _) => AllNameable(dirs) && AllLegal(dirs) && Nameable(name)
  }

  ghost predicate WriteStep(fs: Fs, dirs: seq<seq<Byte>>, name: seq<Byte>, data: seq<Byte>, after: Fs, mid: Fs, dir: nat) {
    Made(fs, ROOT, dirs, mid, dir) && dir in mid.tree && exists first: nat :: Wrote(mid, dir, name, data, first, after)
  }

  /** One successful operation. */
  ghost predicate Step(fs: Fs, op: Op, after: Fs) {
    match op
    case MakeDirs(parts) => exists end: nat :: Made(fs, ROOT, parts, after, end)
    case WriteFile(dirs, name, data) => exists mid: Fs, dir: nat :: WriteStep(fs, dirs, name, data, after, mid, dir)
  }

  /** The directory that gets the file has no entry of that name yet, case aside. */
  ghost predicate IsNew(fs: Fs, op: Op, after: Fs) {
    op.WriteFile? && exists mid: Fs, dir: nat ::
      WriteStep(fs, op.dirs, op.name, op.data, after, mid, dir) && FirstNamed(mid.tree[dir], op.name) == None
  }

  ghost predicate Sound(fs: Fs) {
    Closed(fs) && Small(fs) && LegalDirs(fs)
  }

  lemma StepKeeps(fs: Fs, op: Op, after: Fs)
    requires Sound(fs) && Proper(op) && Step(fs, op, after)
    ensures Sound(after) && Extends(fs, after)
  {
    hide Closed, Small, LegalDirs, Extends, Made, Wrote, AllNameable, AllLegal, Nameable;
    match op
    case MakeDirs(parts) =>
      var end: nat :| Made(fs, ROOT, parts, after, end);
      MadeKeeps(fs, ROOT, parts, after, end);
    case WriteFile(dirs, name, data) =>
      var mid: Fs, dir: nat :| WriteStep(fs, dirs, name, data, after, mid, dir);
      var first: nat :| Wrote(mid, dir, name, data, first, after);
      MadeKeeps(fs, ROOT, dirs, mid, dir);
      WroteKeeps(mid, dir, name, data, first, after);
      ExtendsTrans(fs, mid, after);
  }

  lemma NewIsRead(fs: Fs, op: Op, after: Fs)
    requires Sound(fs) && Proper(op) && IsNew(fs, op, after)
    ensures ReadFs(after, op.dirs + [op.name]) == Some(op.data)
  {
    hide Closed, Small, LegalDirs, Extends, Made, Wrote, AllNameable, AllLegal, Nameable;
    var mid: Fs, dir: nat :|
      WriteStep(fs, op.dirs, op.name, op.data, after, mid, dir) && FirstNamed(mid.tree[dir], op.name) == None;
    var first: nat :| Wrote(mid, dir, op.name, op.data, first, after);
    WrittenIsRead(fs, op.dirs, op.name, op.data, mid, dir, first, after);
  }

  function Formatted(): Fs {
    Fs(map[ROOT := []], map[])
  }

  ghost predicate Runs(states: seq<Fs>, ops: seq<Op>) {
    && |states| == |ops| + 1 && states[0] == Formatted()
    && forall i :: 0 <= i < |ops| ==> Proper(ops[i]) && Step(states[i], ops[i], states[i + 1])
  }

  lemma {:induction false} RunsStaySound(states: seq<Fs>, ops: seq<Op>, i: nat)
    requires Runs(states, ops) && i < |states|
    ensures Sound(states[i])
  {
    if i > 0 {
      hide Step, Proper, Sound;
      RunsStaySound(states, ops, i - 1);
      StepKeeps(states[i - 1], ops[i - 1], states[i - 1 + 1]);
    }
  }

  lemma {:induction false} RunsExtend(states: seq<Fs>, ops: seq<Op>, i: nat, j: nat)
    requires Runs(states, ops) && i <= j < |states|
    ensures Extends(states[i], states[j])
    decreases j
  {
    hide Step, Proper, Sound;
    if i < j {
      RunsExtend(states, ops, i, j - 1);
      RunsStaySound(states, ops, j - 1);
      StepKeeps(states[j - 1], ops[j - 1], states[j - 1 + 1]);
      ExtendsTrans(states[i], states[j - 1], states[j]);
    }
  }

  /** Write/read agreement: in every session, a file written under a new name reads back as
      written in every later state. */
  lemma EveryNewFileIsRead(states: seq<Fs>, ops: seq<Op>, i: nat, j: nat)
    requires Runs(states, ops) && i < |ops| && i < j < |states| && IsNew(states[i], ops[i], states[i + 1])
    ensures ReadFs(states[j], ops[i].dirs + [ops[i].name]) == Some(ops[i].data)
  {
    assert ops[i].WriteFile?;
    hide Step, Proper, Sound, IsNew, ReadFs, Extends;
    RunsStaySound(states, ops, i);
    NewIsRead(states[i], ops[i], states[i + 1]);
    RunsExtend(states, ops, i + 1, j);
    ReadsStay(states[i + 1], states[j], ops[i].dirs + [ops[i].name]);
  }

  // ---- when the name is not new ---------------------------------------------------------------------

  lemma {:induction false} StripShortens(s: seq<Byte>)
    ensures |StripRight(s)| <= |s|
  {
    if s != [] && s[|s| - 1] == 32 {
      StripShortens(s[..|s| - 1]);
    }
  }

  /** The writer only compares short names, so it never finds a name of more than twelve
      characters. */
  lemma {:induction false} LongNamesAreNeverFound(rs: seq<Rec>, name: seq<Byte>)
    requires |name| > 12
    ensures FindRec(rs, Upper(name)) == None
  {
    if rs != [] {
      var short := ShortOf(rs[0]);
      StripShortens(short[..8]);
      StripShortens(short[8..]);
      assert |Key83(rs[0])| <= 12;
      LongNamesAreNeverFound(rs[1..], name);
    }
  }

  /** So a write under a long name to the root is always accepted. */
  lemma LongNameIsAccepted(fs: Fs, name: seq<Byte>, data: seq<Byte>, first: nat)
    requires ROOT in fs.tree && |name| > 12 && first !in fs.files && first < 0x1_0000_0000 && |data| < 0x1_0000_0000
    ensures Step(fs, WriteFile([], name, data), NewFile(fs, ROOT, name, data, first))
  {
    var none: seq<seq<Byte>> := [];
    LongNamesAreNeverFound(fs.tree[ROOT], name);
    hide FindRec;
    assert Wrote(fs, ROOT, name, data, first, NewFile(fs, ROOT, name, data, first));
    assert WriteStep(fs, none, name, data, NewFile(fs, ROOT, name, data, first), fs, ROOT);
  }

  lemma RootLookup(fs: Fs, name: seq<Byte>)
    requires ROOT in fs.tree
    ensures Lookup(fs, ROOT, [name]) == FirstNamed(fs.tree[ROOT], name)
  {
  }

  /** Writing a long name a second time is accepted and lost: the reader goes on seeing the
      first file. */
  lemma SecondWriteIsLost(fs: Fs, name: seq<Byte>, one: seq<Byte>, two: seq<Byte>, a: nat, b: nat)
    requires ROOT in fs.tree && |name| > 12 && FirstNamed(fs.tree[ROOT], name) == None
    requires one != [] && two != [] && |one| < 0x1_0000_0000 && |two| < 0x1_0000_0000
    requires a < 0x1_0000_0000 && b < 0x1_0000_0000 && a !in fs.files && b !in fs.files && a != b
    ensures var mid := NewFile(fs, ROOT, name, one, a); var after := NewFile(mid, ROOT, name, two, b);
      && Step(fs, WriteFile([], name, one), mid) && Step(mid, WriteFile([], name, two), after)
      && ReadFs(after, [name]) == Some(one)
  {
    var mid := NewFile(fs, ROOT, name, one, a);
    var after := NewFile(mid, ROOT, name, two, b);
    LongNameIsAccepted(fs, name, one, a);
    LongNameIsAccepted(mid, name, two, b);
    hide Step;
    FirstNamedAppend(fs.tree[ROOT], Named(name, false, a, |one|), name);
    FirstNamedAppend(mid.tree[ROOT], Named(name, false, b, |two|), name);
    RootLookup(after, name);
    hide FirstNamed, Lookup;
  }

  /** A name that is not in a directory is refused there all the same exactly when it is the
      short form of an entry with another name. */
  lemma RefusedThoughNewExactly(rs: seq<Rec>, name: seq<Byte>)
    requires FirstNamed(rs, name) == None
    ensures FindRec(rs, Upper(name)).Some? <==>
      exists r :: r in rs && Key83(r) == Upper(name) && Upper(Listing(r).name) != Upper(name)
  {
    FindRecIn(rs, Upper(name));
    FirstNamedIn(rs, name);
    hide FindRec, FirstNamed, Key83, Listing;
  }

  /** With "A B" in a directory, "AB" is refused. */
  lemma ShortFormIsRefused(first: nat, size: nat)
    ensures var rs, name := [Named([65, 32, 66], false, first, size)], [65, 66];
      FirstNamed(rs, name) == None && FindRec(rs, Upper(name)) == Some(rs[0])
  {
    var other, name: seq<Byte> := [65, 32, 66], [65, 66];
    assert Upper(other) == other && Upper(name) == name && Legal83(name);
    hide *;
    SameShortName();
    ShadowsIt(other, name, first, size);
  }

  lemma ShadowsIt(other: seq<Byte>, name: seq<Byte>, first: nat, size: nat)
    requires ShortName(other, false) == ShortName(name, false) && Legal83(name)
    requires Upper(other) == other && Upper(name) == name && other != name
    ensures var r := Named(other, false, first, size);
      FirstNamed([r], name) == None && FindRec([r], Upper(name)) == Some(r)
  {
    var r, plain := Named(other, false, first, size), Named(name, false, first, size);
    LegalKey(plain);
    hide ShortName, Legal83, Upper, Name83;
    assert Key83(r) == Key83(plain);
    hide Key83;
    assert [r][1..] == [];
  }

  lemma SameShortName()
    ensures ShortName([65, 32, 66], false) == ShortName([65, 66], false)
  {
    var other, name: seq<Byte> := [65, 32, 66], [65, 66];
    assert Upper(other) == other && Upper(name) == name;
    LegalOfSpaced();
    NoDot(other);
    NoDot(name);
    assert other[..3] == other && name[..2] == name;
    assert Legal(name) == name;
    hide Upper, Legal, LastDot, Spaced;
  }

  lemma LegalOfSpaced()
    ensures Legal([65, 32, 66]) == [65, 66]
  {
    var other: seq<Byte> := [65, 32, 66];
    assert other[1..] == [32, 66] && other[1..][1..] == [66];
    assert Legal([66]) == [66];
  }
}
