/** Check B of the migration guard: the files that a branch adds are compared by their number prefix
    with the files on the live tip of the base branch. What that says, together with Check A, about
    the tree that merging would give. */
module MergeCheck {
  import opened Prelude
  import opened Migrations

  // -------------------------------------------------------------------------------------------
  // File names
  // -------------------------------------------------------------------------------------------

  predicate IsDigit(c: char) { '0' <= c <= '9' }

  predicate IsLower(c: char) { 'a' <= c <= 'z' }

  predicate IsWord(c: char) { IsDigit(c) || IsLower(c) || 'A' <= c <= 'Z' || c == '_' }

  function Digits(s: string): (n: nat)
    ensures n <= |s| && (forall k :: 0 <= k < n ==> IsDigit(s[k])) && (n < |s| ==> !IsDigit(s[n]))
  {
    if s != "" && IsDigit(s[0]) then 1 + Digits(s[1..]) else 0
  }

  /** Word characters, at least one, and the extension. */
  predicate IsStem(s: string) {
    && |s| > 3 && s[|s| - 3] == '.' && s[|s| - 2] == 'p' && s[|s| - 1] == 'y'
    && forall k :: 0 <= k < |s| - 3 ==> IsWord(s[k])
  }

  /** The number prefix of a migration file name, if it is one. */
  function PrefixOf(name: string): Option<string> {
    var d := Digits(name);
    var n := if d < |name| && IsLower(name[d]) then d + 1 else d;
    if d > 0 && n < |name| && name[n] == '_' && IsStem(name[n + 1..]) then Some(name[..n]) else None
  }

  /** Digits, at least one, and optionally one letter. */
  predicate IsNumber(p: string) {
    var n := |p|;
    && n > 0 && IsDigit(p[0]) && (IsDigit(p[n - 1]) || IsLower(p[n - 1]))
    && forall k :: 0 <= k < n - 1 ==> IsDigit(p[k])
  }

  ghost predicate SplitsAt(name: string, n: nat) {
    n < |name| && IsNumber(name[..n]) && name[n] == '_' && IsStem(name[n + 1..])
  }

  /** A name has a prefix exactly when it splits into a number, an underscore and a stem, and then it
      splits in one way only. */
  lemma PrefixIff(name: string, p: string)
    ensures PrefixOf(name) == Some(p) <==> exists n: nat :: SplitsAt(name, n) && p == name[..n]
  {
    var d := Digits(name);
    if PrefixOf(name) == Some(p) {
      assert SplitsAt(name, |p|);
    }
    forall n: nat | SplitsAt(name, n)
      ensures PrefixOf(name) == Some(name[..n])
    {
      var q := name[..n];
      assert forall k :: 0 <= k < n - 1 ==> IsDigit(name[k]) by {
        assert forall k :: 0 <= k < n - 1 ==> q[k] == name[k];
      }
      assert q[n - 1] == name[n - 1] && q[0] == name[0];
      assert d == if IsDigit(name[n - 1]) then n else n - 1;
    }
  }

  lemma PrefixAt(name: string, n: nat)
    requires SplitsAt(name, n)
    ensures PrefixOf(name) == Some(name[..n])
  {
    PrefixIff(name, name[..n]);
  }

  /** Plain numbers, numbers with a letter, and names that are no migrations. */
  lemma PlainNumber()
    ensures PrefixOf("0069_my_feature.py") == Some("0069")
  {
    var name := "0069_my_feature.py";
    assert name[..4] == "0069" && name[5..] == "my_feature.py";
    PrefixAt(name, 4);
  }

  lemma NumberWithLetter()
    ensures PrefixOf("0008a_mf_nav.py") == Some("0008a")
  {
    var name := "0008a_mf_nav.py";
    assert name[..5] == "0008a" && name[6..] == "mf_nav.py";
    PrefixAt(name, 5);
  }

  lemma NoNumber(name: string)
    requires name == "" || name[0] < '0' || name[0] > '9'
    ensures PrefixOf(name).None?
  {
  }

  // -------------------------------------------------------------------------------------------
  // The comparison
  // -------------------------------------------------------------------------------------------

  /** The first of the files with this prefix. */
  function FirstWith(files: seq<string>, prefix: string): (r: Option<string>)
    ensures r.Some? ==> r.value in files && PrefixOf(r.value) == Some(prefix)
    ensures r.None? ==> forall f :: f in files ==> PrefixOf(f) != Some(prefix)
  {
    if files == [] then None
    else
      var n := |files| - 1;
      var before := FirstWith(files[..n], prefix);
      if before.Some? then before
      else if PrefixOf(files[n]) == Some(prefix) then Some(files[n]) else None
  }

  /** It is the first. */
  lemma {:induction false} FirstWithIs(files: seq<string>, prefix: string) returns (i: nat)
    requires FirstWith(files, prefix).Some?
    ensures i < |files| && FirstWith(files, prefix) == Some(files[i])
    ensures PrefixOf(files[i]) == Some(prefix)
    ensures forall j :: 0 <= j < i ==> PrefixOf(files[j]) != Some(prefix)
  {
    var n := |files| - 1;
    if FirstWith(files[..n], prefix).Some? {
      i := FirstWithIs(files[..n], prefix);
    } else {
      i := n;
      forall j | 0 <= j < n
        ensures PrefixOf(files[j]) != Some(prefix)
      {
        assert files[..n][j] in files[..n];
      }
    }
  }

  /** Each new file whose prefix is taken, in order, with the file that took it first. */
  function Collisions(added: seq<string>, base: seq<string>): seq<(string, string)> {
    if added == [] then []
    else
      var n := |added| - 1;
      Collisions(added[..n], base) + CollisionOf(added[n], base)
  }

  function CollisionOf(file: string, base: seq<string>): seq<(string, string)> {
    var prefix := PrefixOf(file);
    if prefix.None? then []
    else
      var taken := FirstWith(base, prefix.value);
      if taken.Some? then [(file, taken.value)] else []
  }

  /** A reported pair is a new file and, second, the base file with its prefix; every new file whose
      prefix is taken is in some pair. */
  lemma {:induction false} CollisionsAre(added: seq<string>, base: seq<string>)
    ensures forall c :: c in Collisions(added, base) ==>
              c.0 in added && c.1 in base && PrefixOf(c.0).Some? && PrefixOf(c.0) == PrefixOf(c.1)
    ensures forall f, g :: f in added && g in base && PrefixOf(f).Some? && PrefixOf(f) == PrefixOf(g) ==>
              exists c :: c in Collisions(added, base) && c.0 == f
  {
    if added != [] {
      var n := |added| - 1;
      CollisionsAre(added[..n], base);
      assert added == added[..n] + [added[n]];
      forall g | g in base && PrefixOf(added[n]).Some? && PrefixOf(added[n]) == PrefixOf(g)
        ensures exists c :: c in Collisions(added, base) && c.0 == added[n]
      {
        var pair := CollisionOf(added[n], base)[0];
        assert pair in Collisions(added, base);
      }
    }
  }

  /** Pairs come in the order of the new files, at most one for each. */
  lemma CollisionsInOrder(added: seq<string>, file: string, base: seq<string>)
    ensures Collisions([], base) == []
    ensures var one := Collisions([file], base);
      |one| <= 1 && Collisions(added + [file], base) == Collisions(added, base) + one
  {
    assert (added + [file])[..|added|] == added && [file][..0] == [];
  }

  ghost predicate FirstByPrefix(files: seq<string>, byPrefix: map<string, string>) {
    forall p :: FirstWith(files, p) == if p in byPrefix then Some(byPrefix[p]) else None
  }

  method FindNewMigrationCollisions(added: seq<string>, base: seq<string>)
    returns (collisions: seq<(string, string)>)
    ensures collisions == Collisions(added, base)
    ensures forall c :: c in collisions ==>
              c.0 in added && c.1 in base && PrefixOf(c.0).Some? && PrefixOf(c.0) == PrefixOf(c.1)
    ensures forall f, g :: f in added && g in base && PrefixOf(f).Some? && PrefixOf(f) == PrefixOf(g) ==>
              exists c :: c in collisions && c.0 == f
  {
    CollisionsAre(added, base);
    var byPrefix: map<string, string> := map[];
    assert base[..0] == [];
    for n := 0 to |base|
      invariant FirstByPrefix(base[..n], byPrefix)
    {
      assert base[..n + 1][..n] == base[..n];
      var prefix := PrefixOf(base[n]);
      if prefix.Some? && prefix.value !in byPrefix {
        byPrefix := byPrefix[prefix.value := base[n]];
      }
    }
    assert base[..|base|] == base;
    collisions := [];
    assert added[..0] == [];
    for n := 0 to |added|
      invariant collisions == Collisions(added[..n], base)
    {
      assert added[..n + 1][..n] == added[..n];
      var prefix := PrefixOf(added[n]);
      if prefix.Some? && prefix.value in byPrefix {
        collisions := collisions + [(added[n], byPrefix[prefix.value])];
      }
    }
    assert added[..|added|] == added;
  }

  /** No collision is reported exactly when no new file shares its prefix with a base file. */
  lemma {:induction false} NoCollisionIff(added: seq<string>, base: seq<string>)
    ensures Collisions(added, base) == [] <==>
      forall f, g :: f in added && g in base && PrefixOf(f).Some? ==> PrefixOf(f) != PrefixOf(g)
  {
    if added != [] {
      var n := |added| - 1;
      NoCollisionIff(added[..n], base);
      assert added == added[..n] + [added[n]];
    }
  }

  // -------------------------------------------------------------------------------------------
  // The merged tree
  // -------------------------------------------------------------------------------------------

  function Files(ms: seq<Migration>): (files: seq<string>)
    ensures |files| == |ms| && forall i :: 0 <= i < |ms| ==> files[i] == ms[i].file
  {
    seq(|ms|, i requires 0 <= i < |ms| => ms[i].file)
  }

  /** The migrations of the branch whose files the base does not have. */
  function Added(branch: seq<Migration>, base: seq<Migration>): (added: seq<Migration>)
    ensures forall m :: m in added <==> m in branch && m.file !in Files(base)
  {
    if branch == [] then []
    else
      var n := |branch| - 1;
      Added(branch[..n], base) + if branch[n].file in Files(base) then [] else [branch[n]]
  }

  function Merged(branch: seq<Migration>, base: seq<Migration>): seq<Migration> {
    base + Added(branch, base)
  }

  /** The naming convention: a file's prefix is its revision id. */
  ghost predicate Conventional(ms: seq<Migration>) {
    forall m :: m in ms ==> PrefixOf(m.file) == Some(m.revision)
  }

  predicate CheckBPasses(branch: seq<Migration>, base: seq<Migration>) {
    Collisions(Files(Added(branch, base)), Files(base)) == []
  }

  lemma {:induction false} AddedUnique(branch: seq<Migration>, base: seq<Migration>)
    requires UniqueRevisions(branch)
    ensures UniqueRevisions(Added(branch, base))
  {
    if branch != [] {
      var n := |branch| - 1;
      UniqueFront(branch);
      AddedUnique(branch[..n], base);
    }
  }

  lemma JoinUniqueIff(a: seq<Migration>, b: seq<Migration>)
    requires UniqueRevisions(a) && UniqueRevisions(b)
    ensures UniqueRevisions(a + b) <==> forall m, m' :: m in a && m' in b ==> m.revision != m'.revision
  {
    var c := a + b;
    if UniqueRevisions(c) {
      forall m, m' | m in a && m' in b
        ensures m.revision != m'.revision
      {
        var i :| 0 <= i < |a| && a[i] == m;
        var j :| 0 <= j < |b| && b[j] == m';
        assert c[i] == m && c[|a| + j] == m';
      }
    }
    if forall m, m' :: m in a && m' in b ==> m.revision != m'.revision {
      forall i, j | 0 <= i < j < |c|
        ensures c[i].revision != c[j].revision
      {
        if i < |a| <= j {
          assert c[i] in a && c[j] in b;
        }
      }
    }
  }

  lemma SamePrefix(added: seq<Migration>, base: seq<Migration>)
    requires Conventional(added) && Conventional(base)
    ensures Collisions(Files(added), Files(base)) == [] <==>
      forall m, m' :: m in base && m' in added ==> m.revision != m'.revision
  {
    NoCollisionIff(Files(added), Files(base));
    FilesOf(added);
    FilesOf(base);
  }

  lemma FilesOf(ms: seq<Migration>)
    ensures forall m :: m in ms ==> m.file in Files(ms)
    ensures forall f :: f in Files(ms) ==> exists m :: m in ms && m.file == f
  {
    forall m | m in ms
      ensures m.file in Files(ms)
    {
      var i :| 0 <= i < |ms| && ms[i] == m;
      assert Files(ms)[i] == m.file;
    }
  }

  /** For files named by the convention, with unique revisions on either side, Check B passes if and
      only if the merged tree has unique revisions: it reports neither too much nor too little. */
  lemma MergedUniqueIff(branch: seq<Migration>, base: seq<Migration>)
    requires Conventional(branch) && Conventional(base)
    requires UniqueRevisions(branch) && UniqueRevisions(base)
    ensures CheckBPasses(branch, base) <==> UniqueRevisions(Merged(branch, base))
  {
    AddedUnique(branch, base);
    JoinUniqueIff(base, Added(branch, base));
    SamePrefix(Added(branch, base), base);
  }

  /** A file that branch and base both have is the same migration on either side. */
  ghost predicate Agree(branch: seq<Migration>, base: seq<Migration>) {
    forall m, m' :: m in branch && m' in base && m.file == m'.file ==> m == m'
  }

  lemma SubDowns(a: seq<Migration>, b: seq<Migration>)
    requires forall m :: m in a ==> m in b
    ensures DownRevisions(a) <= DownRevisions(b) && Revisions(a) <= Revisions(b)
  {
    SameRevisions(a, b);
  }

  lemma {:induction false} DownsJoin(a: seq<Migration>, b: seq<Migration>)
    ensures DownRevisions(a + b) == DownRevisions(a) + DownRevisions(b)
    ensures Revisions(a + b) == Revisions(a) + Revisions(b)
    decreases |b|
  {
    if b == [] {
      assert a + b == a;
    } else {
      var n := |b| - 1;
      assert (a + b)[..|a| + n] == a + b[..n];
      DownsJoin(a, b[..n]);
      DownsSnoc(a + b[..n], b[n]);
      DownsSnoc(b[..n], b[n]);
      assert a + b == a + b[..n] + [b[n]] && b == b[..n] + [b[n]];
    }
  }

  lemma DownsSnoc(front: seq<Migration>, m: Migration)
    ensures DownRevisions(front + [m]) ==
            DownRevisions(front) + if m.down.Some? then {m.down.value} else {}
  {
  }

  /** The branch is what it adds and what it shares with the base. */
  function Shared(branch: seq<Migration>, base: seq<Migration>): (shared: seq<Migration>)
    ensures forall m :: m in shared <==> m in branch && m.file in Files(base)
  {
    if branch == [] then []
    else
      var n := |branch| - 1;
      Shared(branch[..n], base) + if branch[n].file in Files(base) then [branch[n]] else []
  }

  lemma BranchSplits(branch: seq<Migration>, base: seq<Migration>)
    ensures Revisions(branch) == Revisions(Added(branch, base)) + Revisions(Shared(branch, base))
    ensures DownRevisions(branch) == DownRevisions(Added(branch, base)) + DownRevisions(Shared(branch, base))
  {
    var parts := Added(branch, base) + Shared(branch, base);
    SubDowns(branch, parts);
    SubDowns(parts, branch);
    DownsJoin(Added(branch, base), Shared(branch, base));
  }

  lemma SharedInBase(branch: seq<Migration>, base: seq<Migration>)
    requires Agree(branch, base)
    ensures Revisions(Shared(branch, base)) <= Revisions(base)
    ensures DownRevisions(Shared(branch, base)) <= DownRevisions(base)
  {
    forall m | m in Shared(branch, base)
      ensures m in base
    {
      FilesOf(base);
      var m' :| m' in base && m'.file == m.file;
    }
    SubDowns(Shared(branch, base), base);
  }

  function HeadRevisions(ms: seq<Migration>): set<string> {
    Revisions(ms) - DownRevisions(ms)
  }

  lemma NeverShared(a: seq<Migration>, b: seq<Migration>, m: Migration, m': Migration)
    requires UniqueRevisions(a + b) && m in a && m' in b
    ensures m.revision != m'.revision
  {
    var i :| 0 <= i < |a| && a[i] == m;
    var j :| 0 <= j < |b| && b[j] == m';
    assert (a + b)[i] == m && (a + b)[|a| + j] == m';
  }

  lemma JoinDisjoint(a: seq<Migration>, b: seq<Migration>)
    requires UniqueRevisions(a + b)
    ensures Revisions(a) !! Revisions(b)
  {
    RevisionsMean(a);
    RevisionsMean(b);
    forall m, m' | m in a && m' in b
      ensures m.revision != m'.revision
    {
      NeverShared(a, b, m, m');
    }
  }

  /** The set arithmetic behind the next lemma: `r` and `d` are revisions and parents of the base
      (b), of what is added (a) and of what is shared (s). */
  lemma HeadArithmetic(rb: set<string>, db: set<string>, ra: set<string>, da: set<string>,
                       rs: set<string>, ds: set<string>)
    requires ra !! rb && rs <= rb && ds <= db
    ensures (rb + ra) - (db + da) == ((rb - db) - da) + (((ra + rs) - (da + ds)) - rb - db)
  {
  }

  /** The heads of the merged tree, exactly: the heads of the base that nothing added continues, and
      the heads of the branch that are new and that nothing on the base continues. */
  lemma MergedHeads(branch: seq<Migration>, base: seq<Migration>)
    requires Agree(branch, base) && UniqueRevisions(Merged(branch, base))
    ensures HeadRevisions(Merged(branch, base)) ==
            (HeadRevisions(base) - DownRevisions(Added(branch, base))) +
            (HeadRevisions(branch) - Revisions(base) - DownRevisions(base))
  {
    var added, shared := Added(branch, base), Shared(branch, base);
    DownsJoin(base, added);
    BranchSplits(branch, base);
    SharedInBase(branch, base);
    JoinDisjoint(base, added);
    HeadArithmetic(Revisions(base), DownRevisions(base), Revisions(added), DownRevisions(added),
                   Revisions(shared), DownRevisions(shared));
  }

  lemma HeadCount(ms: seq<Migration>)
    requires UniqueRevisions(ms)
    ensures Passes(ms) <==> |HeadRevisions(ms)| == 1
    ensures Passes(ms) ==> HeadRevisions(ms) == {FindHeads(ms)[0].revision}
  {
    OutsideRevisions(ms, DownRevisions(ms));
    OutsideSize(ms, DownRevisions(ms));
    if Passes(ms) {
      RevisionIn(FindHeads(ms), FindHeads(ms)[0]);
      OneElementIs(HeadRevisions(ms), FindHeads(ms)[0].revision);
    }
  }

  lemma OneElementIs(s: set<string>, x: string)
    requires |s| == 1 && x in s
    ensures s == {x}
  {
    SubsetSize({x}, s);
  }

  /** When branch and base both pass, the base's parents resolve and the merged ids are unique, the
      merged tree passes if and only if the branch's head is already on the base exactly when
      nothing that it adds continues the base's head. All of it can be read off before the merge. */
  lemma {:induction false} MergedPassesIff(branch: seq<Migration>, base: seq<Migration>)
    requires Passes(branch) && Passes(base) && ParentsResolve(base) && Agree(branch, base)
    requires UniqueRevisions(Merged(branch, base))
    ensures var head, tip := FindHeads(base)[0].revision, FindHeads(branch)[0].revision;
      Passes(Merged(branch, base)) <==>
      (tip in Revisions(base) <==> head !in DownRevisions(Added(branch, base)))
  {
    var head, tip := FindHeads(base)[0].revision, FindHeads(branch)[0].revision;
    HeadCount(branch);
    HeadCount(base);
    HeadCount(Merged(branch, base));
    MergedHeads(branch, base);
    DownsResolve(base);
    OneOrTwo(head, tip, Revisions(base), DownRevisions(base), DownRevisions(Added(branch, base)));
  }

  lemma DownsResolve(ms: seq<Migration>)
    requires ParentsResolve(ms)
    ensures DownRevisions(ms) <= Revisions(ms)
  {
  }

  lemma OneOrTwo(head: string, tip: string, rb: set<string>, db: set<string>, da: set<string>)
    requires head in rb && db <= rb
    ensures |({head} - da) + ({tip} - rb - db)| == 1 <==> (tip in rb <==> head !in da)
  {
    var left, right := {head} - da, {tip} - rb - db;
    assert left == if head in da then {} else {head};
    assert right == if tip in rb then {} else {tip};
  }

  /** A branch that has every file of the base merges into a tree that passes Check A if it does,
      whatever the base looks like. */
  lemma UpToDateMergePasses(branch: seq<Migration>, base: seq<Migration>)
    requires Passes(branch) && UniqueRevisions(base)
    requires (forall m :: m in base ==> m in branch) && Agree(branch, base)
    ensures Passes(Merged(branch, base))
  {
    UpToDateUnique(branch, base);
    MergedHeads(branch, base);
    BranchSplits(branch, base);
    SharedInBase(branch, base);
    SubDowns(base, Shared(branch, base)) by {
      FilesOf(base);
    }
    assert HeadRevisions(Merged(branch, base)) == HeadRevisions(branch);
    HeadCount(branch);
    HeadCount(Merged(branch, base));
  }

  lemma UpToDateUnique(branch: seq<Migration>, base: seq<Migration>)
    requires UniqueRevisions(branch) && UniqueRevisions(base)
    requires forall m :: m in base ==> m in branch
    ensures UniqueRevisions(Merged(branch, base))
  {
    AddedUnique(branch, base);
    FilesOf(base);
    forall m, m' | m in base && m' in Added(branch, base)
      ensures m.revision != m'.revision
    {
      if m.revision == m'.revision {
        SameRevision(branch, m, m');
      }
    }
    JoinUniqueIff(base, Added(branch, base));
  }

  /** Without that, both checks can pass and the merged tree still have two heads: branch and base
      each continue the same migration under numbers of their own. */
  lemma BothPassTwoHeads(root: Migration, ours: Migration, theirs: Migration)
    requires Conventional([root, ours]) && Conventional([root, theirs])
    requires root.down.None? && ours.down == Some(root.revision) == theirs.down
    requires root.revision != ours.revision && root.revision != theirs.revision
    requires ours.revision != theirs.revision
    ensures Passes([root, ours]) && Passes([root, theirs]) && CheckBPasses([root, ours], [root, theirs])
    ensures UniqueRevisions(Merged([root, ours], [root, theirs]))
    ensures !Passes(Merged([root, ours], [root, theirs]))
  {
    var branch, base := [root, ours], [root, theirs];
    TwoInALine(root, ours);
    TwoInALine(root, theirs);
    OneAdded(root, ours, theirs);
    ThreeUnique(root, theirs, ours);
    MergedUniqueIff(branch, base);
    assert FindHeads(base)[0] == theirs && FindHeads(branch)[0] == ours;
    MergedPassesIff(branch, base);
  }

  lemma DifferentFiles(a: Migration, b: Migration)
    requires Conventional([a]) && Conventional([b]) && a.revision != b.revision
    ensures a.file != b.file
  {
    assert a in [a] && b in [b];
  }

  lemma OneAdded(root: Migration, ours: Migration, theirs: Migration)
    requires Conventional([root, ours]) && Conventional([root, theirs])
    requires root.revision != ours.revision && root.revision != theirs.revision
    requires ours.revision != theirs.revision
    ensures Added([root, ours], [root, theirs]) == [ours]
    ensures Merged([root, ours], [root, theirs]) == [root, theirs, ours]
    ensures Agree([root, ours], [root, theirs])
  {
    var branch, base := [root, ours], [root, theirs];
    assert root in branch && ours in branch && root in base && theirs in base;
    DifferentFiles(root, ours);
    DifferentFiles(root, theirs);
    DifferentFiles(ours, theirs);
    AddedLast(root, ours, base) by {
      assert Files(base) == [root.file, theirs.file];
    }
  }

  lemma AddedLast(root: Migration, ours: Migration, base: seq<Migration>)
    requires root.file in Files(base) && ours.file !in Files(base)
    ensures Added([root, ours], base) == [ours]
  {
    assert [root, ours][..1] == [root] && [root][..0] == [];
    assert Added([root], base) == [];
  }

  lemma TwoInALine(root: Migration, next: Migration)
    requires root.down.None? && next.down == Some(root.revision) && root.revision != next.revision
    ensures Passes([root, next]) && ParentsResolve([root, next]) && FindHeads([root, next]) == [next]
    ensures Revisions([root, next]) == {root.revision, next.revision}
    ensures DownRevisions([next]) == {root.revision}
  {
    var ms := [root, next];
    assert root in ms && next in ms && next in [next];
    assert DownRevisions(ms) == {root.revision};
    assert ms[..1] == [root] && [root][..0] == [];
    assert Outside([root], DownRevisions(ms)) == [];
    assert Revisions([root]) == {root.revision};
  }

  lemma ThreeUnique(a: Migration, b: Migration, c: Migration)
    requires a.revision != b.revision && a.revision != c.revision && b.revision != c.revision
    ensures UniqueRevisions([a, b, c])
  {
  }
}
