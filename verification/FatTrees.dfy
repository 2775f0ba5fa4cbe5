/** The shape of what the image builder makes: every directory but the root hangs in another, and
    its first two entries lead to itself and back to that one. */
module FatTrees {
  import opened Options
  import opened Bits
  import opened FatNames
  import opened FatDirectories
  import opened FatDisks
  import opened FatModel
  import opened FatAgreement

  /** Directory `p` has an entry for directory `k`. */
  ghost predicate Holds(fs: Fs, p: nat, k: nat) {
    p in fs.tree && exists j :: 0 <= j < |fs.tree[p]| && fs.tree[p][j].Named? && fs.tree[p][j].dir && fs.tree[p][j].first == k
  }

  ghost predicate Hangs(fs: Fs, k: nat, p: nat) {
    k in fs.tree && Holds(fs, p, k) && |fs.tree[k]| >= 2 && fs.tree[k][0] == Dot(k) && fs.tree[k][1] == DotDot(p)
  }

  ghost predicate Rooted(fs: Fs) {
    forall k :: k in fs.tree && k != ROOT ==> exists p :: Hangs(fs, k, p)
  }

  lemma HangsStill(a: Fs, b: Fs, k: nat, p: nat)
    requires Hangs(a, k, p) && Extends(a, b)
    ensures Hangs(b, k, p)
  {
    var j :| 0 <= j < |a.tree[p]| && a.tree[p][j].Named? && a.tree[p][j].dir && a.tree[p][j].first == k;
    assert b.tree[p][j] == a.tree[p][j];
    assert b.tree[k][0] == a.tree[k][0] && b.tree[k][1] == a.tree[k][1];
  }

  lemma RootedStill(a: Fs, b: Fs)
    requires Rooted(a) && Extends(a, b)
    requires forall k :: k in b.tree && k !in a.tree ==> exists p :: Hangs(b, k, p)
    ensures Rooted(b)
  {
    hide Hangs, Extends;
    forall k | k in b.tree && k != ROOT && k in a.tree
      ensures exists p :: Hangs(b, k, p)
    {
      var p :| Hangs(a, k, p);
      HangsStill(a, b, k, p);
    }
  }

  lemma NewDirRooted(fs: Fs, dir: nat, name: seq<Byte>, c: nat)
    requires Closed(fs) && Small(fs) && Rooted(fs) && dir in fs.tree && c !in fs.tree && c < 0x1_0000_0000 && Nameable(name)
    ensures Rooted(NewDir(fs, dir, name, c))
  {
    var g := NewDir(fs, dir, name, c);
    NewDirKeeps(fs, dir, name, c);
    assert g.tree[dir][|fs.tree[dir]|] == Named(name, true, c, 0);
    assert Hangs(g, c, dir);
    hide Closed, Extends, Hangs;
    RootedStill(fs, g);
  }

  lemma {:induction false} MadeRooted(fs: Fs, dir: nat, parts: seq<seq<Byte>>, after: Fs, end: nat)
    requires Closed(fs) && Small(fs) && Rooted(fs) && AllNameable(parts) && Made(fs, dir, parts, after, end)
    ensures Rooted(after)
    decreases |parts|
  {
    hide Nameable, Key83, Closed, Small, Rooted, NewDir, Extends;
    if parts != [] {
      var name := parts[0];
      match FindRec(fs.tree[dir], Upper(name))
      case Some(r) => MadeRooted(fs, r.first, parts[1..], after, end);
      case None =>
        var c: nat :| MadeAt(fs, dir, parts, c, after, end);
        NewDirKeeps(fs, dir, name, c);
        NewDirRooted(fs, dir, name, c);
        MadeRooted(NewDir(fs, dir, name, c), c, parts[1..], after, end);
    }
  }

  lemma WroteRooted(mid: Fs, dir: nat, name: seq<Byte>, data: seq<Byte>, first: nat, after: Fs)
    requires Closed(mid) && Small(mid) && Rooted(mid) && Nameable(name) && Wrote(mid, dir, name, data, first, after)
    ensures Rooted(after)
  {
    WroteKeeps(mid, dir, name, data, first, after);
    assert after.tree.Keys == mid.tree.Keys;
    hide Closed, Small, Rooted, Extends, Wrote;
    RootedStill(mid, after);
  }

  lemma StepRooted(fs: Fs, op: Op, after: Fs)
    requires Sound(fs) && Rooted(fs) && Proper(op) && Step(fs, op, after)
    ensures Rooted(after)
  {
    hide Closed, Small, LegalDirs, Extends, Made, Wrote, AllNameable, AllLegal, Nameable, Rooted;
    match op
    case MakeDirs(parts) =>
      var end: nat :| Made(fs, ROOT, parts, after, end);
      MadeRooted(fs, ROOT, parts, after, end);
    case WriteFile(dirs, name, data) =>
      var mid: Fs, dir: nat :| WriteStep(fs, dirs, name, data, after, mid, dir);
      var first: nat :| Wrote(mid, dir, name, data, first, after);
      MadeKeeps(fs, ROOT, dirs, mid, dir);
      MadeRooted(fs, ROOT, dirs, mid, dir);
      WroteRooted(mid, dir, name, data, first, after);
  }

  lemma {:induction false} RunsStayRooted(states: seq<Fs>, ops: seq<Op>, i: nat)
    requires Runs(states, ops) && i < |states|
    ensures Rooted(states[i])
  {
    hide Step, Proper, Sound, Rooted, Formatted;
    if i > 0 {
      RunsStayRooted(states, ops, i - 1);
      RunsStaySound(states, ops, i - 1);
      assert Proper(ops[i - 1]) && Step(states[i - 1], ops[i - 1], states[i - 1 + 1]);
      hide Runs;
      StepRooted(states[i - 1], ops[i - 1], states[i - 1 + 1]);
    } else {
      FormattedRooted();
    }
  }

  lemma FormattedRooted()
    ensures Rooted(Formatted())
  {
  }

  /** For the reader, . leads from a directory to itself and .. to the one that has it. */
  lemma DotsLead(fs: Fs, k: nat, p: nat)
    requires Hangs(fs, k, p)
    ensures Walk(fs, k, [[46]]) == Some(k) && Walk(fs, k, [[46, 46]]) == Some(p)
  {
    var rs, one: seq<seq<Byte>>, two: seq<seq<Byte>> := fs.tree[k], [[46]], [[46, 46]];
    assert one[1..] == [] && two[1..] == [];
    DotNames(k, p);
    assert rs[1..][0] == rs[1];
    assert FirstNamed(rs, [46]) == Some(rs[0]);
    assert FirstNamed(rs, [46, 46]) == FirstNamed(rs[1..], [46, 46]) == Some(rs[1]);
    hide FirstNamed, Upper;
  }

  lemma DotNames(k: nat, p: nat)
    ensures Upper(Listing(Dot(k)).name) == [46] == Upper([46])
    ensures Upper(Listing(DotDot(p)).name) == [46, 46] == Upper([46, 46])
  {
  }

  /** In every session, from every directory but the root, .. leads the reader back to a directory
      that has it, and . leaves him where he is. */
  lemma DotsLeadBack(states: seq<Fs>, ops: seq<Op>, i: nat, k: nat) returns (p: nat)
    requires Runs(states, ops) && i < |states| && k in states[i].tree && k != ROOT
    ensures Holds(states[i], p, k)
    ensures Walk(states[i], k, [[46, 46]]) == Some(p) && Walk(states[i], k, [[46]]) == Some(k)
  {
    RunsStayRooted(states, ops, i);
    p :| Hangs(states[i], k, p);
    hide Walk, Rooted, Runs;
    DotsLead(states[i], k, p);
  }

  // ---- names ----------------------------------------------------------------------------------------

  /** The same character, or the same letter in the other case. */
  predicate SameLetter(a: Byte, b: Byte) {
    a == b || (97 <= a <= 122 && b == a - 32) || (97 <= b <= 122 && a == b - 32)
  }

  predicate SameLetters(s: seq<Byte>, t: seq<Byte>) {
    |s| == |t| && forall i :: 0 <= i < |s| ==> SameLetter(s[i], t[i])
  }

  lemma CaseIs(s: seq<Byte>, t: seq<Byte>)
    ensures Upper(s) == Upper(t) <==> SameLetters(s, t)
  {
    if Upper(s) == Upper(t) {
      forall i | 0 <= i < |s| ensures SameLetter(s[i], t[i]) {
        assert Upper(s)[i] == UpperChar(s[i]) && Upper(t)[i] == UpperChar(t[i]);
      }
    }
  }

  predicate IsFirst(rs: seq<Rec>, name: seq<Byte>, i: int) {
    && 0 <= i < |rs| && SameLetters(Listing(rs[i]).name, name)
    && forall j :: 0 <= j < i ==> !SameLetters(Listing(rs[j]).name, name)
  }

  /** The reader finds the first entry that has the name letter by letter, case aside, and finds
      none exactly when there is none. */
  lemma {:induction false} FoundMeans(rs: seq<Rec>, name: seq<Byte>)
    ensures FirstNamed(rs, name) == None <==> forall i :: 0 <= i < |rs| ==> !SameLetters(Listing(rs[i]).name, name)
    ensures FirstNamed(rs, name).Some? ==> exists i :: IsFirst(rs, name, i) && FirstNamed(rs, name) == Some(rs[i])
  {
    if rs != [] {
      CaseIs(Listing(rs[0]).name, name);
      FoundMeans(rs[1..], name);
      hide SameLetters, Upper, Listing;
      assert forall i :: 0 < i < |rs| ==> rs[i] == rs[1..][i - 1];
      if Upper(Listing(rs[0]).name) != Upper(name) && FirstNamed(rs[1..], name).Some? {
        var i :| IsFirst(rs[1..], name, i) && FirstNamed(rs[1..], name) == Some(rs[1..][i]);
        assert rs[i + 1] == rs[1..][i];
        assert forall j :: 0 < j < i + 1 ==> rs[j] == rs[1..][j - 1];
        assert IsFirst(rs, name, i + 1);
      } else if Upper(Listing(rs[0]).name) == Upper(name) {
        assert IsFirst(rs, name, 0);
      }
    }
  }

  /** Two paths that agree letter by letter, case aside, lead to the same bytes. */
  lemma {:induction false} CaseDoesNotMatter(fs: Fs, dir: nat, a: seq<seq<Byte>>, b: seq<seq<Byte>>)
    requires |a| == |b| && forall i :: 0 <= i < |a| ==> SameLetters(a[i], b[i])
    ensures Lookup(fs, dir, a) == Lookup(fs, dir, b)
    decreases |a|
  {
    if a != [] && dir in fs.tree {
      CaseIs(a[0], b[0]);
      SameFound(fs.tree[dir], a[0], b[0]);
      hide SameLetters, FirstNamed, Upper;
      match FirstNamed(fs.tree[dir], a[0])
      case None =>
      case Some(r) => CaseDoesNotMatter(fs, r.first, a[1..], b[1..]);
    }
  }

  lemma {:induction false} SameFound(rs: seq<Rec>, a: seq<Byte>, b: seq<Byte>)
    requires Upper(a) == Upper(b)
    ensures FirstNamed(rs, a) == FirstNamed(rs, b)
  {
    if rs != [] {
      SameFound(rs[1..], a, b);
    }
  }
}
