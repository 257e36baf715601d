/**
 Conflict application (`conflict_writer.rs`, `conflict/fork.rs`, `conflict/merge.rs`): a clean
 three-way merge replaces the live file; anything else leaves it alone and writes the remote
 bytes under the first free of a hundred fork names.  Paths are sequences of components
 below the vault root.
 */
module ForkWriter {
  import opened Results
  import opened Native
  import opened Decimal
  import opened Calendar

  type Path = seq<string>

  const MAX_ATTEMPTS: nat := 100

  function Parent(p: Path): Path {
    if p == [] then [] else p[..|p| - 1]
  }

  /** The file name; a path that ends in the root or in `..` has none. */
  function NameOf(p: Path): string {
    if p == [] || p[|p| - 1] == ".." || p[|p| - 1] == "/" then "" else p[|p| - 1]
  }

  /** The last dot of a name, or its length. */
  function LastDot(name: string): (k: nat)
    ensures k <= |name|
    ensures k < |name| ==> name[k] == '.'
    ensures forall i :: 0 <= i < |name| && name[i] == '.' ==> i <= k < |name|
  {
    if name == "" then 0
    else if name[|name| - 1] == '.' then |name| - 1
    else
      var k := LastDot(name[..|name| - 1]);
      if k == |name| - 1 then |name| else k
  }

  // ---------------------------------------------------------------- fork names

  function HexOnly(node: string): (s: string)
    ensures forall i :: 0 <= i < |s| ==> HexDigit(s[i])
  {
    if node == "" then ""
    else (if HexDigit(node[0]) then [node[0]] else "") + HexOnly(node[1..])
  }

  function NodeTag(node: string): (s: string)
    ensures |s| == 8 && forall i :: 0 <= i < |s| ==> HexDigit(s[i])
  {
    var h := HexOnly(node);
    if |h| >= 8 then h[..8] else h + Zeros(8 - |h|)
  }

  /** Characters that are no hexadecimal digits do not count … */
  lemma {:induction false} OthersAreDropped(p: string, c: char, q: string)
    requires !(c in "0123456789abcdef")
    ensures NodeTag(p + [c] + q) == NodeTag(p + q)
  {
    DropsOne(p, c, q);
  }

  lemma {:induction false} DropsOne(p: string, c: char, q: string)
    requires !(c in "0123456789abcdef")
    ensures HexOnly(p + [c] + q) == HexOnly(p + q)
  {
    HexDigitIs(c);
    if p == "" {
      assert p + [c] + q == [c] + q && p + q == q;
      assert ([c] + q)[1..] == q;
    } else {
      assert (p + [c] + q)[0] == p[0] && (p + [c] + q)[1..] == p[1..] + [c] + q;
      assert (p + q)[0] == p[0] && (p + q)[1..] == p[1..] + q;
      DropsOne(p[1..], c, q);
    }
  }

  /** … and of the digits the first eight are taken, with zeros for those that are missing. */
  lemma TagOfDigits(node: string)
    requires forall i :: 0 <= i < |node| ==> node[i] in "0123456789abcdef"
    ensures if |node| >= 8 then NodeTag(node) == node[..8] else NodeTag(node) == node + Zeros(8 - |node|)
  {
    KeepsDigits(node);
  }

  lemma {:induction false} KeepsDigits(node: string)
    requires forall i :: 0 <= i < |node| ==> node[i] in "0123456789abcdef"
    ensures HexOnly(node) == node
  {
    if node != "" {
      HexDigitIs(node[0]);
      KeepsDigits(node[1..]);
      assert node == [node[0]] + node[1..];
    }
  }

  /** Stem and extension; a leading dot starts no extension. */
  function SplitStem(name: string): (string, string) {
    var from := if name != "" && name[0] == '.' then 1 else 0;
    var k := LastDot(name[from..]);
    if k == |name| - from then (name, "") else (name[..from + k], name[from + k + 1..])
  }

  function ForkName(name: string, node: string, at: Civil): string {
    var (stem, ext) := SplitStem(name);
    stem + ".sync-conflict-" + NodeTag(node) + "-" + Text(at) + (if ext == "" then "" else "." + ext)
  }

  function ForkPath(rel: Path, node: string, at: Civil): Path {
    Parent(rel) + [ForkName(NameOf(rel), node, at)]
  }

  lemma Sandwich(p: string, a: string, b: string, q: string)
    requires p + a + q == p + b + q
    ensures a == b
  {
    assert |a| == |b|;
    assert a == (p + a + q)[|p|..|p| + |a|] == (p + b + q)[|p|..|p| + |a|] == b;
  }

  /** Forks of one file by one node in different seconds have different names. */
  lemma ForkNamesDiffer(rel: Path, node: string, a: Civil, b: Civil)
    requires a.Real() && b.Real() && SecondsOf(a) != SecondsOf(b)
    ensures ForkPath(rel, node, a) != ForkPath(rel, node, b)
  {
    hide Text, SplitStem, NodeTag;
    TimestampsDiffer(a, b);
    var (stem, ext) := SplitStem(NameOf(rel));
    var p, q := stem + ".sync-conflict-" + NodeTag(node) + "-", if ext == "" then "" else "." + ext;
    if ForkPath(rel, node, a) == ForkPath(rel, node, b) {
      assert ForkPath(rel, node, a)[|Parent(rel)|] == p + Text(a) + q;
      assert ForkPath(rel, node, b)[|Parent(rel)|] == p + Text(b) + q;
      Sandwich(p, Text(a), Text(b), q);
    }
  }

  // ---------------------------------------------------------------- collision names

  function Suffixed(name: string, counter: nat): string {
    var k := LastDot(name);
    name[..k] + "-" + Render(counter) + name[k..]
  }

  lemma {:induction false} LastDotIs(p: string, q: string)
    requires '.' !in q
    ensures LastDot(p + "." + q) == |p|
  {
    var s := p + "." + q;
    if q == "" {
      assert s[|s| - 1] == '.';
    } else {
      var front := q[..|q| - 1];
      assert s[..|s| - 1] == p + "." + front && s[|s| - 1] == q[|q| - 1];
      LastDotIs(p, front);
    }
  }

  /** The counter of a collision goes after the timestamp exactly when the file has an
      extension; otherwise the last dot is the one before the conflict mark, and it goes there. */
  lemma CounterAfterTimestampIff(name: string, node: string, at: Civil, counter: nat)
    ensures var (stem, ext) := SplitStem(name);
            var mark, suffixed := "sync-conflict-" + NodeTag(node) + "-" + Text(at), Suffixed(ForkName(name, node, at), counter);
            && (ext != "" ==> suffixed == stem + "." + mark + "-" + Render(counter) + "." + ext)
            && (ext == "" ==> suffixed == stem + "-" + Render(counter) + "." + mark)
            && (ext == "" ==> suffixed != stem + "." + mark + "-" + Render(counter))
  {
    hide Text, NodeTag, SplitStem, LastDot, Render;
    var (stem, ext) := SplitStem(name);
    var tag, text := NodeTag(node), Text(at);
    var mark, fork := "sync-conflict-" + tag + "-" + text, ForkName(name, node, at);
    SplitIsExact(name);
    TextIsPlain(at);
    if ext != "" {
      assert fork == (stem + "." + mark) + "." + ext;
      SuffixedAt(stem + "." + mark, ext, counter);
    } else {
      assert '.' !in mark by {
        Within('.', "sync-conflict-", tag);
        Within('.', "sync-conflict-" + tag, "-");
        Within('.', "sync-conflict-" + tag + "-", text);
      }
      assert fork == stem + "." + mark;
      SuffixedAt(stem, mark, counter);
      assert (stem + "-" + Render(counter) + "." + mark)[|stem|] == '-';
      assert (stem + "." + mark + "-" + Render(counter))[|stem|] == '.';
    }
  }

  lemma SuffixedAt(p: string, q: string, counter: nat)
    requires '.' !in q
    ensures Suffixed(p + "." + q, counter) == p + "-" + Render(counter) + "." + q
  {
    hide LastDot, Render;
    LastDotIs(p, q);
    var s := p + "." + q;
    assert s[..|p|] == p && s[|p|..] == "." + q;
  }

  /** The `attempt`-th path tried for a fork. */
  function Candidate(fork: Path, attempt: nat): Path {
    if attempt == 0 then fork else Parent(fork) + [Suffixed(NameOf(fork), attempt)]
  }

  /** No two attempts try the same path. */
  lemma CandidatesDiffer(fork: Path, i: nat, j: nat)
    requires fork != [] && Candidate(fork, i) == Candidate(fork, j)
    ensures i == j
  {
    hide LastDot, Suffixed;
    var n := |fork| - 1;
    assert Candidate(fork, i)[n] == Candidate(fork, j)[n];
    SuffixedIsNew(fork, i);
    SuffixedIsNew(fork, j);
    if i > 0 && j > 0 {
      SuffixedTells(NameOf(fork), i, j);
    }
  }

  lemma SuffixedIsNew(fork: Path, i: nat)
    requires fork != []
    ensures Suffixed(NameOf(fork), i) != fork[|fork| - 1]
  {
    hide LastDot;
    var name := NameOf(fork);
    assert |Suffixed(name, i)| > |name|;
    if name == "" {
      assert Suffixed(name, i)[0] == '-';
    }
  }

  lemma SuffixedTells(name: string, i: nat, j: nat)
    requires Suffixed(name, i) == Suffixed(name, j)
    ensures i == j
  {
    hide LastDot;
    var k := LastDot(name);
    Sandwich(name[..k] + "-", Render(i), Render(j), name[k..]);
    RenderIsInjective(i, j);
  }

  predicate Traverses(p: Path) {
    exists i :: 0 <= i < |p| && (p[i] == ".." || p[i] == "/" || '\0' in p[i])
  }

  // ---------------------------------------------------------------- merging

  datatype RefuseReason = NoBase | TooLarge | Binary | NotText
  datatype MergeOutput = Clean(merged: Bytes) | Conflicted(marked: Bytes) | Refused(why: RefuseReason)

  /** The diff library's merge (clean or not, and the text) and the UTF-8 test. */
  datatype Merger = Merger(merge: (Bytes, Bytes, Bytes) -> (bool, Bytes), utf8: Bytes -> bool)

  const SIZE_CAP: nat := 10 * 1024 * 1024

  predicate HasNul(data: Bytes) {
    0 in (if |data| <= 1024 then data else data[..1024])
  }

  function ThreeWayMerge(m: Merger, base: Option<Bytes>, local: Bytes, remote: Bytes): MergeOutput {
    if base.None? then Refused(NoBase)
    else if |base.value| > SIZE_CAP || |local| > SIZE_CAP || |remote| > SIZE_CAP then Refused(TooLarge)
    else if HasNul(base.value) || HasNul(local) || HasNul(remote) then Refused(Binary)
    else if !m.utf8(base.value) || !m.utf8(local) || !m.utf8(remote) then Refused(NotText)
    else
      var (clean, text) := m.merge(base.value, local, remote);
      if clean then Clean(text) else Conflicted(text)
  }

  /** The inputs that are merged: a base, everything within 10 MiB, no NUL among the first 1024
      bytes, all of it text, and a merge without conflict. */
  ghost predicate Mergeable(m: Merger, base: Option<Bytes>, local: Bytes, remote: Bytes) {
    && base.Some? && Textual(m, base.value) && Textual(m, local) && Textual(m, remote)
    && m.merge(base.value, local, remote).0
  }

  ghost predicate Textual(m: Merger, data: Bytes) {
    |data| <= 10_485_760 && (forall i :: 0 <= i < |data| && i < 1024 ==> data[i] != 0) && m.utf8(data)
  }

  lemma NulsAreFound(data: Bytes)
    ensures HasNul(data) <==> exists i :: 0 <= i < |data| && i < 1024 && data[i] == 0
  {
    var head := if |data| <= 1024 then data else data[..1024];
    if HasNul(data) {
      var i :| 0 <= i < |head| && head[i] == 0;
      assert data[i] == 0;
    }
    if i :| 0 <= i < |data| && i < 1024 && data[i] == 0 {
      assert head[i] == 0;
    }
  }

  /** A merge is clean exactly on those inputs, with the merger's text; without a base, or with one
      of the three too large, it is refused for that reason before anything else is looked at. */
  lemma CleanExactly(m: Merger, base: Option<Bytes>, local: Bytes, remote: Bytes, text: Bytes)
    ensures ThreeWayMerge(m, base, local, remote) == Clean(text) <==>
              Mergeable(m, base, local, remote) && text == m.merge(base.value, local, remote).1
    ensures ThreeWayMerge(m, base, local, remote) == Refused(NoBase) <==> base.None?
    ensures ThreeWayMerge(m, base, local, remote) == Refused(TooLarge) <==>
              base.Some? && (|base.value| > 10_485_760 || |local| > 10_485_760 || |remote| > 10_485_760)
  {
    NulsAreFound(local);
    NulsAreFound(remote);
    if base.Some? {
      NulsAreFound(base.value);
    }
    hide HasNul;
  }

  lemma CleanNeedsBase(m: Merger, base: Option<Bytes>, local: Bytes, remote: Bytes)
    ensures ThreeWayMerge(m, base, local, remote).Clean? <==> Mergeable(m, base, local, remote)
    ensures ThreeWayMerge(m, base, local, remote).Clean? ==>
              base.Some? && ThreeWayMerge(m, base, local, remote).merged == m.merge(base.value, local, remote).1
  {
    var out := ThreeWayMerge(m, base, local, remote);
    if base.Some? {
      CleanExactly(m, base, local, remote, m.merge(base.value, local, remote).1);
      if out.Clean? {
        CleanExactly(m, base, local, remote, out.merged);
      }
    }
  }

  function Lower(c: char): char {
    if 'A' <= c <= 'Z' then (c as int + 32) as char else c
  }

  function LowerAll(s: string): string {
    seq(|s|, i requires 0 <= i < |s| => Lower(s[i]))
  }

  predicate MergeEligible(p: Path) {
    var name := NameOf(p);
    var k := LastDot(name);
    0 < k < |name| && LowerAll(name[k + 1..]) in {"md", "txt"}
  }

  const TEXT_EXTENSIONS: set<string> :=
    {"md", "mD", "Md", "MD", "txt", "txT", "tXt", "tXT", "Txt", "TxT", "TXt", "TXT"}

  /** Names with a stem and one of these extensions, in either case, and no others. */
  ghost predicate TextName(name: string) {
    exists stem: string, ext: string :: stem != "" && ext in TEXT_EXTENSIONS && name == stem + "." + ext
  }

  lemma ExtensionIs(ext: string)
    ensures LowerAll(ext) in {"md", "txt"} <==> ext in TEXT_EXTENSIONS
  {
    var low := LowerAll(ext);
    if |ext| == 2 {
      assert ext == [ext[0], ext[1]] && low == [low[0], low[1]];
    } else if |ext| == 3 {
      assert ext == [ext[0], ext[1], ext[2]] && low == [low[0], low[1], low[2]];
    }
  }

  lemma EligibleExactly(p: Path)
    ensures MergeEligible(p) <==> TextName(NameOf(p))
  {
    hide LastDot, LowerAll;
    var name := NameOf(p);
    var k := LastDot(name);
    if 0 < k < |name| {
      ExtensionIs(name[k + 1..]);
      assert name == name[..k] + "." + name[k + 1..];
    }
    if stem: string, ext: string :| stem != "" && ext in TEXT_EXTENSIONS && name == stem + "." + ext {
      LastDotIs(stem, ext);
      assert name[k + 1..] == ext;
    }
  }

  // ---------------------------------------------------------------- the vault

  datatype Node = File(bytes: Bytes) | Folder
  type Tree = map<Path, Node>

  datatype ForkError = Io | AlreadyExists | PathTraversal
  /** Which file operation of a call fails, if any: a folder on the way, or the file itself. */
  datatype Luck = AllWell | FolderFails(depth: nat) | WriteFails

  datatype Try<+T> = Done(value: T) | Failed(why: ForkError)
  datatype Applied = Merged | Forked(at: Path)

  ghost predicate Above(p: Path, q: Path) {
    |p| <= |q| && q[..|p|] == p
  }

  /** Nothing that was there changed; only folders on the way to `dir` were added. */
  ghost predicate OnlyFolders(before: Tree, after: Tree, dir: Path) {
    && (forall p :: p in before ==> p in after && after[p] == before[p])
    && (forall p :: p in after && p !in before ==> after[p] == Folder && Above(p, dir))
  }

  ghost predicate Blocked(t: Tree, dir: Path) {
    exists p :: p in t && p != [] && t[p].File? && Above(p, dir)
  }

  ghost predicate AllTaken(t: Tree, fork: Path) {
    forall k: nat :: k < 100 ==> Candidate(fork, k) in t
  }

  /** Without a fault these are the reasons for which a fork is not written. */
  ghost predicate CannotFork(t: Tree, fork: Path) {
    Traverses(fork) || Blocked(t, Parent(fork)) || AllTaken(t, fork)
  }

  /** The fork is at the first free candidate, whole, and nothing else changed. */
  ghost predicate ForkedAt(before: Tree, after: Tree, fork: Path, at: Path, contents: Bytes) {
    exists k: nat, grown: Tree :: FirstFree(before, fork, k)
      && at == Candidate(fork, k) && OnlyFolders(before, grown, Parent(fork)) && after == grown[at := File(contents)]
  }

  ghost predicate FirstFree(t: Tree, fork: Path, k: nat) {
    k < 100 && Candidate(fork, k) !in t && forall j: nat :: j < k ==> Candidate(fork, j) in t
  }

  class Vault {
    var tree: Tree

    constructor (tree: Tree)
      ensures this.tree == tree
    {
      this.tree := tree;
    }

    /** `create_dir_all`. */
    method MakeFolders(dir: Path, luck: Luck) returns (out: Try<()>, ghost faulty: bool)
      modifies this
      ensures OnlyFolders(old(tree), tree, dir)
      ensures out.Failed? ==> out.why == Io
      ensures faulty ==> out == Failed(Io) && luck.FolderFails?
      ensures !faulty ==> (out.Failed? <==> Blocked(old(tree), dir))
    {
      faulty := false;
      for i := 1 to |dir| + 1
        invariant OnlyFolders(old(tree), tree, dir)
        invariant forall p :: p in old(tree) && old(tree)[p].File? && Above(p, dir) ==> p == [] || |p| >= i
      {
        if dir[..i] in tree {
          if tree[dir[..i]].File? {
            return Failed(Io), faulty;
          }
        } else {
          if luck == FolderFails(i) {
            return Failed(Io), true;
          }
          tree := tree[dir[..i] := Folder];
        }
      }
      return Done(()), faulty;
    }
  
    /** `write_atomic`: the whole file under a free name, or nothing. */
    method WriteAtomic(path: Path, contents: Bytes, luck: Luck) returns (out: Try<()>, ghost faulty: bool)
      modifies this
      ensures out == Failed(AlreadyExists) <==> path in old(tree)
      ensures out.Done? ==> tree == old(tree)[path := File(contents)]
      ensures out.Failed? ==> tree == old(tree) && out.why != PathTraversal
      ensures faulty <==> out == Failed(Io)
      ensures faulty <==> path !in old(tree) && luck.WriteFails?
    {
      if path in tree {
        return Failed(AlreadyExists), false;
      }
      if luck.WriteFails? {
        return Failed(Io), true;
      }
      tree := tree[path := File(contents)];
      return Done(()), false;
    }

    /** `write_fork`. */
    method WriteFork(rel: Path, contents: Bytes, node: string, at: Civil, luck: Luck) returns (out: Try<Path>, ghost faulty: bool)
      modifies this
      ensures var fork := ForkPath(rel, node, at);
              && (out.Done? ==> !Traverses(fork) && ForkedAt(old(tree), tree, fork, out.value, contents))
              && (out.Failed? ==> OnlyFolders(old(tree), tree, Parent(fork)))
              && (out == Failed(PathTraversal) <==> Traverses(fork))
              && (out == Failed(AlreadyExists) ==> AllTaken(old(tree), fork))
              && (faulty ==> out == Failed(Io) && !luck.AllWell?)
              && (!faulty && !Traverses(fork) ==>
                    if Blocked(old(tree), Parent(fork)) then out == Failed(Io)
                    else if AllTaken(old(tree), fork) then out == Failed(AlreadyExists)
                    else out.Done?)
      ensures out.Done? ==> Plain(out.value)
      ensures out == Failed(PathTraversal) ==> !Plain(Parent(rel)) || '\0' in NameOf(rel)
    {
      hide ForkName, Traverses, Blocked, Plain;
      faulty := false;
      var fork := ForkPath(rel, node, at);
      ForkIsConfined(rel, node, at);
      PlainIs(Parent(rel));
      PlainCandidates(fork);
      if Traverses(fork) {
        return Failed(PathTraversal), faulty;
      }
      var made;
      made, faulty := MakeFolders(Parent(fork), luck);
      if made.Failed? {
        return Failed(Io), faulty;
      }
      ghost var grown := tree;
      NoCandidateIsAFolder(old(tree), grown, fork);
      hide Candidate, OnlyFolders;
      for attempt := 0 to MAX_ATTEMPTS
        invariant tree == grown
        invariant forall j: nat :: j < attempt ==> Candidate(fork, j) in old(tree)
      {
        var candidate := Candidate(fork, attempt);
        var wrote, broke := WriteAtomic(candidate, contents, luck);
        if wrote.Done? {
          assert FirstFree(old(tree), fork, attempt);
          return Done(candidate), faulty;
        }
        if wrote.why != AlreadyExists {
          return Failed(wrote.why), broke;
        }
      }
      return Failed(AlreadyExists), faulty;
    }

    /** `apply_conflict`.  A merge changes the live path only; a fork changes no file that was
        there and holds exactly the remote bytes; a failure changes no file at all. */
    method ApplyConflict(m: Merger, rel: Path, base: Option<Bytes>, local: Bytes, remote: Bytes, node: string, at: Civil,
                         luck: Luck)
      returns (out: Try<Applied>, ghost faulty: bool)
      modifies this
      ensures var merge := if MergeEligible(rel) then ThreeWayMerge(m, base, local, remote) else Refused(NotText);
              && (out.Done? ==> (out.value.Merged? <==> merge.Clean?))
              && (out == Done(Merged) ==>
                    exists grown :: OnlyFolders(old(tree), grown, Parent(rel)) && tree == grown[rel := File(merge.merged)])
              && (out.Done? && out.value.Forked? ==>
                    ForkedAt(old(tree), tree, ForkPath(rel, node, at), out.value.at, remote))
              && (out.Failed? ==> OnlyFolders(old(tree), tree, Parent(rel)))
              && (faulty ==> out == Failed(Io) && !luck.AllWell?)
              && (!faulty ==>
                    (out.Failed? <==>
                       || Blocked(old(tree), Parent(rel))
                       || if merge.Clean? then rel in old(tree) && old(tree)[rel].Folder?
                          else Traverses(ForkPath(rel, node, at)) || AllTaken(old(tree), ForkPath(rel, node, at))))
              // The documented fall-back to a fork.  After a fault it never happens; without one the
              // promise is kept unless the merge meets a folder while the fork could be written.
              && (merge.Clean? && out.Failed? ==> out.why == Io && OnlyFolders(old(tree), tree, Parent(rel)))
              && (!faulty && merge.Clean? ==>
                    ((out.Failed? ==> CannotFork(old(tree), ForkPath(rel, node, at))) <==>
                       || !(rel in old(tree) && old(tree)[rel].Folder?)
                       || CannotFork(old(tree), ForkPath(rel, node, at))))
      ensures var merges := TextName(NameOf(rel)) && Mergeable(m, base, local, remote);
              && (out == Done(Merged) ==>
                    merges && rel in tree && tree[rel] == File(m.merge(base.value, local, remote).1))
              && (merges && !faulty && !Blocked(old(tree), Parent(rel)) && !(rel in old(tree) && old(tree)[rel].Folder?) ==>
                    out == Done(Merged))
              && (!merges ==> out != Done(Merged))
    {
      hide ForkName, Traverses, Blocked, ThreeWayMerge, MergeEligible, ForkedAt, OnlyFolders, AllTaken;
      faulty := false;
      EligibleExactly(rel);
      CleanNeedsBase(m, base, local, remote);
      hide TextName, Mergeable;
      if MergeEligible(rel) {
        var merge := ThreeWayMerge(m, base, local, remote);
        if merge.Clean? {
          var made;
          made, faulty := MakeFolders(Parent(rel), luck);
          if made.Failed? {
            return Failed(Io), faulty;
          }
          LiveIsNotOnTheWay(old(tree), tree, rel);
          if luck.WriteFails? || (rel in tree && tree[rel].Folder?) {
            return Failed(Io), faulty || luck.WriteFails?;
          }
          tree := tree[rel := File(merge.merged)];
          return Done(Merged), faulty;
        }
      }
      var forked;
      forked, faulty := WriteFork(rel, remote, node, at, luck);
      return if forked.Failed? then Failed(forked.why) else Done(Forked(forked.value)), faulty;
    }
  }

  /** A clean merge of `x.md` where a folder has that name: the call fails and writes no file,
      fault or not, although without a fault the fork could have been written. */
  method MergeWithoutFallback(m: Merger, base: Option<Bytes>, local: Bytes, remote: Bytes, node: string, at: Civil, luck: Luck)
    returns (out: Try<Applied>, after: Tree)
    requires ThreeWayMerge(m, base, local, remote).Clean?
    ensures out == Failed(Io)
    ensures forall p :: p in after ==> after[p] == Folder
    ensures !CannotFork(map[["x.md"] := Folder], ForkPath(["x.md"], node, at))
  {
    hide ThreeWayMerge, Blocked, Traverses, AllTaken, ForkedAt;
    var before: Tree := map[["x.md"] := Folder];
    var vault := new Vault(before);
    MarkdownMerges();
    ForkIsFree(node, at);
    hide MergeEligible;
    ghost var faulty;
    out, faulty := vault.ApplyConflict(m, ["x.md"], base, local, remote, node, at, luck);
    after := vault.tree;
  }

  lemma MarkdownMerges()
    ensures MergeEligible(["x.md"])
  {
    LastDotIs("x", "md");
    assert "x" + "." + "md" == "x.md" && "x.md"[2..] == "md";
    assert LowerAll("md") == "md";
  }

  lemma ForkIsFree(node: string, at: Civil)
    ensures var fork := ForkPath(["x.md"], node, at);
            !CannotFork(map[["x.md"] := Folder], fork)
  {
    var rel: Path := ["x.md"];
    var fork := ForkPath(rel, node, at);
    ForkIsConfined(rel, node, at);
    assert Parent(rel) == [] && fork == [ForkName("x.md", node, at)];
    assert |ForkName("x.md", node, at)| > 4;
    assert Candidate(fork, 0) == fork && fork[0] != "x.md";
  }

  /** No component leads up, to the root, or has a NUL. */
  ghost predicate Plain(p: Path) {
    forall i :: 0 <= i < |p| ==> p[i] != ".." && p[i] != "/" && '\0' !in p[i]
  }

  lemma PlainIs(p: Path)
    ensures Plain(p) <==> !Traverses(p)
  {
  }

  /** Every path tried for a safe fork is safe. */
  lemma PlainCandidates(fork: Path)
    requires fork != []
    ensures !Traverses(fork) ==> forall k: nat :: Plain(Candidate(fork, k))
  {
    if !Traverses(fork) {
      forall k: nat ensures Plain(Candidate(fork, k)) {
        var n := |fork| - 1;
        assert Plain(fork);
        if k > 0 {
          SuffixIsPlain(fork[n], k);
          assert NameOf(fork) == fork[n];
          hide Suffixed;
          assert forall i :: 0 <= i < n ==> Candidate(fork, k)[i] == fork[i];
          assert Candidate(fork, k)[n] == Suffixed(fork[n], k);
        }
      }
    }
  }

  lemma SuffixIsPlain(name: string, k: nat)
    requires '\0' !in name
    ensures '\0' !in Suffixed(name, k) && Suffixed(name, k) != ".." && Suffixed(name, k) != "/"
  {
    hide LastDot, Render;
    var d := LastDot(name);
    var digits := Render(k);
    assert '-' in Suffixed(name, k) by {
      assert Suffixed(name, k)[d] == '-';
    }
    Within('\0', name[..d], "-");
    Within('\0', name[..d] + "-", digits);
    Within('\0', name[..d] + "-" + digits, name[d..]);
  }

  lemma LiveIsNotOnTheWay(before: Tree, grown: Tree, rel: Path)
    requires MergeEligible(rel) && OnlyFolders(before, grown, Parent(rel))
    ensures rel in grown <==> rel in before
    ensures rel in before ==> grown[rel] == before[rel]
  {
    assert rel != [];
  }

  lemma NoCandidateIsAFolder(before: Tree, grown: Tree, fork: Path)
    requires fork != [] && OnlyFolders(before, grown, Parent(fork))
    ensures forall k: nat :: Candidate(fork, k) in grown <==> Candidate(fork, k) in before
  {
    hide Suffixed;
    forall k: nat ensures Candidate(fork, k) in grown <==> Candidate(fork, k) in before {
      assert |Candidate(fork, k)| == |fork| > |Parent(fork)|;
    }
  }

  /** Zero data loss: after a fork every file of the vault is still there with its bytes, and
      the remote bytes are there too, under a name that was free. */
  lemma NothingIsLost(before: Tree, after: Tree, fork: Path, at: Path, contents: Bytes)
    requires fork != [] && ForkedAt(before, after, fork, at, contents)
    ensures forall p :: p in before ==> p in after && after[p] == before[p]
    ensures at !in before && at in after && after[at] == File(contents)
    ensures forall p :: p in after && p !in before && p != at ==> after[p] == Folder
    ensures Parent(at) == Parent(fork)
  {
    hide Suffixed;
    var k: nat, grown: Tree :| FirstFree(before, fork, k)
      && at == Candidate(fork, k) && OnlyFolders(before, grown, Parent(fork)) && after == grown[at := File(contents)];
  }

  /** The fork stays where the file is: the check fails exactly when the file's own path is unsafe. */
  lemma ForkIsConfined(rel: Path, node: string, at: Civil)
    ensures Traverses(ForkPath(rel, node, at)) <==> Traverses(Parent(rel)) || '\0' in NameOf(rel)
  {
    var fork := ForkPath(rel, node, at);
    NameIsPlain(NameOf(rel), node, at);
    assert Parent(rel) == fork[..|fork| - 1];
    assert fork[|fork| - 1] == ForkName(NameOf(rel), node, at);
    hide ForkName;
    if Traverses(Parent(rel)) {
      var i :| 0 <= i < |Parent(rel)| && (Parent(rel)[i] == ".." || Parent(rel)[i] == "/" || '\0' in Parent(rel)[i]);
      assert fork[i] == Parent(rel)[i];
    }
  }

  lemma Within(c: char, s: string, t: string)
    ensures c in s + t <==> c in s || c in t
  {
  }

  /** The name is its stem, a dot and its extension, and the extension has no dot. */
  lemma SplitIsExact(name: string)
    ensures var (stem, ext) := SplitStem(name);
            && (if ext == "" then name == stem || name == stem + "." else name == stem + "." + ext)
            && '.' !in ext
  {
    var from := if name != "" && name[0] == '.' then 1 else 0;
    var rest := name[from..];
    var k := LastDot(rest);
    if k < |rest| {
      assert name == name[..from + k] + "." + name[from + k + 1..];
      assert forall i :: from + k < i < |name| ==> name[i] == rest[i - from];
    }
  }

  /** A name has an extension exactly when it has a dot after its first character and none at
      its end. */
  lemma ExtensionIff(name: string)
    ensures SplitStem(name).1 != "" <==>
              name != "" && name[|name| - 1] != '.' && exists i :: 1 <= i < |name| && name[i] == '.'
    ensures SplitStem(name).1 == "" && name != SplitStem(name).0 <==> |name| > 1 && name[|name| - 1] == '.'
  {
    hide LastDot;
    var from := if name != "" && name[0] == '.' then 1 else 0;
    var rest := name[from..];
    var k := LastDot(rest);
    DotInside(name, from);
    if k < |rest| {
      assert rest[k] == name[from + k] && rest[|rest| - 1] == name[|name| - 1];
    }
  }

  lemma DotInside(name: string, from: nat)
    requires from <= |name| && from == if name != "" && name[0] == '.' then 1 else 0
    ensures LastDot(name[from..]) < |name[from..]| <==> exists i :: 1 <= i < |name| && name[i] == '.'
    ensures |name| > 1 && name[|name| - 1] == '.' ==> LastDot(name[from..]) == |name| - from - 1
  {
    hide LastDot;
    var rest := name[from..];
    if i :| 1 <= i < |name| && name[i] == '.' {
      assert rest[i - from] == '.';
    }
    if LastDot(rest) < |rest| {
      assert name[from + LastDot(rest)] == '.';
    }
    if |name| > 1 && name[|name| - 1] == '.' {
      assert rest[|rest| - 1] == '.';
    }
  }

  lemma NameIsPlain(name: string, node: string, at: Civil)
    ensures |ForkName(name, node, at)| > 2
    ensures '\0' in ForkName(name, node, at) <==> '\0' in name
  {
    hide Text, NodeTag, SplitStem;
    SplitIsExact(name);
    TextIsPlain(at);
    var (stem, ext) := SplitStem(name);
    var c := '\0';
    var tag, last := NodeTag(node), if ext == "" then "" else "." + ext;
    assert c !in tag;
    Within(c, stem, ".sync-conflict-");
    Within(c, stem + ".sync-conflict-", tag);
    Within(c, stem + ".sync-conflict-" + tag, "-");
    Within(c, stem + ".sync-conflict-" + tag + "-", Text(at));
    Within(c, stem + ".sync-conflict-" + tag + "-" + Text(at), last);
    Within(c, ".", ext);
    Within(c, stem, ".");
    Within(c, stem + ".", ext);
  }

  lemma TextIsPlain(at: Civil)
    ensures '\0' !in Text(at) && '.' !in Text(at)
  {
    hide Pad;
  }
}
