/** Writing an accepted archive to an output tree that folds case (scripts/prepare_managed_resources.py, extract_runtime). */
module RuntimeFolding {
  import opened RuntimeArchive
  import opened RuntimeExtraction
  import opened Sequences
  import opened Wrappers

  /** The path folds to one as long, and its ancestor to that one's ancestor. */
  predicate FoldsAncestor(fold: Path -> Path, path: Path, n: nat)
    requires n <= |path|
  {
    |fold(path)| == |path| && fold(path[..n]) == fold(path)[..n]
  }

  /** Folding works part by part. */
  ghost predicate FoldsByPart(fold: Path -> Path) {
    forall path: Path, n: nat :: n <= |path| ==> FoldsAncestor(fold, path, n)
  }

  function Folded(fold: Path -> Path, names: seq<Path>): (folded: seq<Path>)
    ensures |folded| == |names| && forall i :: 0 <= i < |names| ==> folded[i] == fold(names[i])
  {
    seq(|names|, i requires 0 <= i < |names| => fold(names[i]))
  }

  /** If the first n parts of b fold like a, they are spelled like a. */
  predicate SpelledAlike(fold: Path -> Path, a: Path, b: Path, n: nat) {
    n < |b| && fold(b[..n]) == fold(a) ==> b[..n] == a
  }

  /** A directory of some file that folds like a file's name is spelled like it. */
  ghost predicate OneSpelling(fold: Path -> Path, names: seq<Path>) {
    forall i, j, n: nat :: 0 <= i < |names| && 0 <= j < |names| ==> SpelledAlike(fold, names[i], names[j], n)
  }

  /**
   Folding leaves no name an ancestor of another exactly when none was before and no file is named like a directory of
   another in a different spelling.
   */
  lemma FoldedPrefixFreeExactly(fold: Path -> Path, names: seq<Path>)
    requires FoldsByPart(fold)
    ensures PrefixFree(Folded(fold, names)) <==> PrefixFree(names) && OneSpelling(fold, names)
  {
    var folded := Folded(fold, names);
    if PrefixFree(folded) {
      forall i, j | 0 <= i < |names| && 0 <= j < |names| ensures !(names[i] < names[j]) {
        FoldKeepsAncestors(fold, names[i], names[j]);
        assert !(folded[i] < folded[j]);
      }
      forall i, j, n: nat | 0 <= i < |names| && 0 <= j < |names|
        ensures SpelledAlike(fold, names[i], names[j], n)
      {
        assert !(folded[i] < folded[j]);
        FoldedAncestor(fold, names[i], names[j], n);
      }
    }
    if PrefixFree(names) && OneSpelling(fold, names) {
      forall i, j | 0 <= i < |names| && 0 <= j < |names| ensures !(folded[i] < folded[j]) {
        assert !(names[i] < names[j]) && SpelledAlike(fold, names[i], names[j], |names[i]|);
        AncestorUnfolded(fold, names[i], names[j]);
      }
    }
  }

  lemma FoldKeepsAncestors(fold: Path -> Path, a: Path, b: Path)
    requires FoldsByPart(fold)
    ensures a < b ==> fold(a) < fold(b)
  {
    if a < b {
      FoldedAncestor(fold, a, b, |a|);
      assert a == b[..|a|];
    }
  }

  lemma FoldedAncestor(fold: Path -> Path, a: Path, b: Path, n: nat)
    requires FoldsByPart(fold)
    ensures n < |b| && fold(b[..n]) == fold(a) ==> fold(a) < fold(b)
  {
    if n < |b| {
      assert FoldsAncestor(fold, b, n);
    }
  }

  /** A folded ancestor is the folding of an ancestor. */
  lemma AncestorUnfolded(fold: Path -> Path, a: Path, b: Path)
    requires FoldsByPart(fold) && SpelledAlike(fold, a, b, |a|)
    ensures fold(a) < fold(b) ==> a < b
  {
    assert FoldsAncestor(fold, a, 0) && FoldsAncestor(fold, b, 0);
    if fold(a) < fold(b) {
      assert FoldsAncestor(fold, b, |a|);
    }
  }

  // ----- Writing to a tree that folds names -----

  /** What the tree is asked to store: every copy under its folded name. */
  function FoldedCopies(fold: Path -> Path, copies: seq<Copy>): (folded: seq<Copy>)
    ensures |folded| == |copies|
    ensures forall i :: 0 <= i < |copies| ==> folded[i] == Copy(fold(copies[i].name), copies[i].source)
  {
    seq(|copies|, i requires 0 <= i < |copies| => Copy(fold(copies[i].name), copies[i].source))
  }

  /** Entries that do not clash have file names that stay apart when they are folded. */
  lemma {:induction false} FoldedFileNamesDistinct(rules: Rules, entries: seq<Member>)
    requires forall i :: 0 <= i < |entries| ==> InTree(entries[i])
    requires forall i, j :: 0 <= i < j < |entries| ==> NoClash(rules, entries[i], entries[j])
    ensures Distinct(Folded(rules.fold, FileNames(entries)))
  {
    if entries != [] {
      var n := |entries| - 1;
      FoldedFileNamesDistinct(rules, entries[..n]);
      var names := FileNames(entries[..n]);
      var before := Folded(rules.fold, names);
      if !entries[n].kind.Directory? {
        assert Folded(rules.fold, FileNames(entries)) == before + [rules.fold(NameOf(entries[n]))];
        forall i | 0 <= i < |before| ensures before[i] != rules.fold(NameOf(entries[n])) {
          FileNameIn(entries[..n], names[i]);
          var k :| 0 <= k < n && NameOf(entries[k]) == names[i];
          assert NoClash(rules, entries[k], entries[n]);
        }
      }
    }
  }

  /**
   Writing the copies of an accepted archive to a tree that folds names like the member check does: it succeeds exactly
   when no file is named like a directory of another in a different spelling, and then every name leads to its bytes.
   Otherwise it fails after the first write, and leaves the copies before the failing one.
   */
  method WriteFolded(rules: Rules, archive: seq<Member>, copies: seq<Copy>, output: Output) returns (complete: bool)
    requires FoldsByPart(rules.fold) && Acceptable(rules, archive)
    requires AreCopies(TableOf(Entries(archive)), FileNames(Entries(archive)), copies)
    requires output.Empty()
    modifies output`files, output`directories
    ensures complete <==> OneSpelling(rules.fold, FileNames(Entries(archive)))
    ensures complete ==> AreFiles(output.files, FoldedCopies(rules.fold, copies))
    ensures !complete ==>
      exists n :: 0 < n < |copies| && AreFiles(output.files, FoldedCopies(rules.fold, copies)[..n])
  {
    ghost var names := FileNames(Entries(archive));
    var folded := FoldedCopies(rules.fold, copies);
    assert NamesOf(folded) == Folded(rules.fold, names);
    FoldedFileNamesDistinct(rules, Entries(archive));
    FoldedPrefixFreeExactly(rules.fold, names);
    forall i | 0 <= i < |folded| ensures folded[i].name != [] {
      FilesStayInside(rules, archive, names[i]);
      assert FoldsAncestor(rules.fold, names[i], 0);
    }
    complete := WriteAll(output, folded);
  }

  // ----- An archive that only a case-sensitive tree can hold -----

  function FoldFoo(path: Path): (folded: Path)
    ensures |folded| == |path|
    ensures forall i :: 0 <= i < |path| ==> folded[i] == if path[i] == "Foo" then "foo" else path[i]
  {
    seq(|path|, i requires 0 <= i < |path| => if path[i] == "Foo" then "foo" else path[i])
  }

  function FooRules(): Rules {
    Rules(FoldFoo, (part: string) => false, (path: Path) => true)
  }

  const FOO := Member(["python", "Foo"], File, 1)
  const BAR := Member(["python", "foo", "bar"], File, 1)

  lemma FooFolds()
    ensures FoldsByPart(FooRules().fold)
  {
    var fold := FooRules().fold;
    forall path: Path, n: nat | n <= |path| ensures FoldsAncestor(fold, path, n) {
      assert FoldFoo(path[..n]) == FoldFoo(path)[..n];
    }
  }

  lemma FooEntries()
    ensures Entries([FOO, BAR]) == [FOO, BAR]
    ensures SizeSum([]) == 0 && SizeSum([FOO]) == 1 && SizeSum([FOO, BAR]) == 2
  {
    assert [FOO, BAR][..1] == [FOO];
    assert [FOO][..0] == [];
    assert Entries([FOO]) == [FOO];
  }

  lemma FooNames()
    ensures InTree(FOO) && InTree(BAR) && NameOf(FOO) == ["Foo"] && NameOf(BAR) == ["foo", "bar"]
    ensures FileNames([FOO, BAR]) == [["Foo"], ["foo", "bar"]]
  {
    assert [FOO, BAR][..1] == [FOO];
    assert [FOO][..0] == [];
    assert FileNames([FOO]) == [["Foo"]];
  }

  lemma FooTable()
    ensures InTree(FOO) && InTree(BAR) && TableOf([FOO, BAR]) == map[["Foo"] := FOO, ["foo", "bar"] := BAR]
  {
    assert [FOO, BAR][..1] == [FOO];
    assert [FOO][..0] == [];
    assert NameOf(FOO) == ["Foo"] && NameOf(BAR) == ["foo", "bar"];
    assert TableOf([FOO]) == map[["Foo"] := FOO];
  }

  lemma FooNamesAreValid()
    ensures ValidName(FooRules(), ["Foo"]) && ValidName(FooRules(), ["foo", "bar"])
  {
    assert NameLength(["Foo"]) == 3 && NameLength(["foo", "bar"]) == 7 by {
      assert NameLength(["bar"]) == 3;
      assert ["foo", "bar"][1..] == ["bar"];
    }
  }

  lemma FooAdmissible()
    ensures Admissible(FooRules(), [FOO, BAR])
  {
    FooEntries();
    FooNames();
    FooNamesAreValid();
    hide Entries, FileNames, TableOf, SizeSum, ValidName;
    var entries := [FOO, BAR];
    forall n: nat | n <= 2 ensures SizeSum(entries[..n]) <= MAX_UNPACKED_BYTES {
      assert entries[..n] == if n == 0 then [] else if n == 1 then [FOO] else entries;
    }
  }

  lemma {:induction false} FooBytes(members: Table)
    requires members == map[["Foo"] := FOO, ["foo", "bar"] := BAR]
    ensures Named(members) && AllResolve(members, [["Foo"], ["foo", "bar"]])
    ensures CopiedBytes(members, [["Foo"], ["foo", "bar"]]) == 2
  {
    var names := [["Foo"], ["foo", "bar"]];
    assert Regular(members, names[0], {}) == Ok(names[0]) && Regular(members, names[1], {}) == Ok(names[1]);
    hide Regular;
    assert names[..1] == [names[0]] && [names[0]][..0] == [];
    assert CopiedBytes(members, []) == 0;
    assert CopiedBytes(members, [names[0]]) == 1;
  }

  lemma FooMaterialises()
    ensures DistinctNames([FOO, BAR]) && Named(TableOf([FOO, BAR])) && Materialisable([FOO, BAR])
  {
    FooNames();
    FooTable();
    hide FileNames, TableOf, CopiedBytes, AllResolve;
    FooBytes(TableOf([FOO, BAR]));
    var names: seq<Path> := [["Foo"], ["foo", "bar"]];
    assert names[0][0][0] != names[1][0][0];
    forall i, j | 0 <= i < |names| && 0 <= j < |names| ensures !(names[i] < names[j]) {
      assert i == 0 && j == 1 ==> names[i][0] != names[j][0];
    }
  }

  /** A file `Foo` and a file `foo/bar` are accepted together, although no tree that folds case can hold both. */
  lemma AcceptedNamesMayFoldTogether()
    ensures Acceptable(FooRules(), [FOO, BAR])
    ensures FoldsByPart(FooRules().fold) && !PrefixFree(Folded(FooRules().fold, FileNames(Entries([FOO, BAR]))))
  {
    FooEntries();
    FooNames();
    FooFolds();
    FooAdmissible();
    FooMaterialises();
    hide Entries, FileNames, Admissible, Materialisable, FoldsByPart, TableOf;
    var folded := Folded(FooRules().fold, FileNames(Entries([FOO, BAR])));
    assert folded[0] == ["foo"] && folded[1] == ["foo", "bar"];
    assert folded[0] < folded[1];
  }
}
