/** Validating a whole interpreter archive and writing its files (scripts/prepare_managed_resources.py, extract_runtime). */
module RuntimeExtraction {
  import opened Sequences
  import opened RuntimeArchive
  import opened Wrappers

  // ----- What an acceptable archive is -----

  predicate IsRoot(m: Member) {
    m.path == ["python"] && m.kind.Directory?
  }

  predicate InTree(m: Member) {
    |m.path| >= 2 && m.path[0] == "python"
  }

  function NameOf(m: Member): Path
    requires InTree(m)
  {
    m.path[1..]
  }

  /** The members other than the root directory itself. */
  function Entries(archive: seq<Member>): seq<Member> {
    if archive == [] then []
    else
      var before := Entries(archive[..|archive| - 1]);
      var last := archive[|archive| - 1];
      if IsRoot(last) then before else before + [last]
  }

  /** One member on its own: inside the tree, with a portable name, of a supported type, of a possible size. */
  predicate Sound(rules: Rules, m: Member) {
    && InTree(m)
    && ValidName(rules, NameOf(m))
    && (m.kind.File? ==> 0 <= m.size <= MAX_UNPACKED_BYTES)
    && !m.kind.Special?
  }

  function SizeSum(entries: seq<Member>): int {
    if entries == [] then 0 else SizeSum(entries[..|entries| - 1]) + entries[|entries| - 1].size
  }

  predicate NoClash(rules: Rules, a: Member, b: Member) {
    InTree(a) && InTree(b) ==> rules.fold(NameOf(a)) != rules.fold(NameOf(b))
  }

  ghost predicate Admissible(rules: Rules, entries: seq<Member>) {
    && (forall i :: 0 <= i < |entries| ==> Sound(rules, entries[i]))
    && (forall i, j :: 0 <= i < j < |entries| ==> NoClash(rules, entries[i], entries[j]))
    && |entries| <= MAX_FILES
    && forall n: nat :: n <= |entries| ==> SizeSum(entries[..n]) <= MAX_UNPACKED_BYTES
  }

  /** Looking entries up by name. */
  function TableOf(entries: seq<Member>): Table
    requires forall i :: 0 <= i < |entries| ==> InTree(entries[i])
  {
    if entries == [] then map[]
    else
      var last := entries[|entries| - 1];
      TableOf(entries[..|entries| - 1])[NameOf(last) := last]
  }

  /** The names to materialise, in archive order. */
  function FileNames(entries: seq<Member>): seq<Path>
    requires forall i :: 0 <= i < |entries| ==> InTree(entries[i])
  {
    if entries == [] then []
    else
      var before := FileNames(entries[..|entries| - 1]);
      var last := entries[|entries| - 1];
      if last.kind.Directory? then before else before + [NameOf(last)]
  }

  lemma {:induction false} FileNameIn(entries: seq<Member>, name: Path)
    requires forall i :: 0 <= i < |entries| ==> InTree(entries[i])
    ensures name in FileNames(entries) <==>
      exists i :: 0 <= i < |entries| && NameOf(entries[i]) == name && !entries[i].kind.Directory?
  {
    if entries != [] {
      FileNameIn(entries[..|entries| - 1], name);
    }
  }

  predicate DistinctNames(entries: seq<Member>) {
    && (forall i :: 0 <= i < |entries| ==> InTree(entries[i]))
    && forall i, j :: 0 <= i < j < |entries| ==> NameOf(entries[i]) != NameOf(entries[j])
  }

  lemma {:induction false} TableKnows(entries: seq<Member>, name: Path)
    requires forall i :: 0 <= i < |entries| ==> InTree(entries[i])
    ensures name in TableOf(entries) <==> exists i :: 0 <= i < |entries| && NameOf(entries[i]) == name
    ensures name in TableOf(entries) ==> TableOf(entries)[name] in entries && NameOf(TableOf(entries)[name]) == name
  {
    if entries != [] {
      TableKnows(entries[..|entries| - 1], name);
    }
  }

  lemma {:induction false} TableAt(entries: seq<Member>, i: nat)
    requires DistinctNames(entries) && i < |entries|
    ensures NameOf(entries[i]) in TableOf(entries) && TableOf(entries)[NameOf(entries[i])] == entries[i]
  {
    if i < |entries| - 1 {
      TableAt(entries[..|entries| - 1], i);
    }
  }

  lemma {:induction false} TableSize(entries: seq<Member>)
    requires DistinctNames(entries)
    ensures |TableOf(entries)| == |entries|
  {
    if entries != [] {
      var n := |entries| - 1;
      TableSize(entries[..n]);
      TableKnows(entries[..n], NameOf(entries[n]));
      assert TableOf(entries).Keys == TableOf(entries[..n]).Keys + {NameOf(entries[n])};
    }
  }

  lemma {:induction false} FileNamesDistinct(entries: seq<Member>, i: nat, j: nat)
    requires DistinctNames(entries) && i < j < |FileNames(entries)|
    ensures FileNames(entries)[i] != FileNames(entries)[j]
  {
    var n := |entries| - 1;
    if j < |FileNames(entries[..n])| {
      FileNamesDistinct(entries[..n], i, j);
    } else {
      FileNameIn(entries[..n], FileNames(entries)[i]);
    }
  }

  // ----- Reading the members -----

  ghost function Folds(rules: Rules, entries: seq<Member>): set<Path>
    requires forall i :: 0 <= i < |entries| ==> InTree(entries[i])
  {
    set i | 0 <= i < |entries| :: rules.fold(NameOf(entries[i]))
  }

  /** What one more member must be, given those before it. */
  ghost predicate Accepts(rules: Rules, entries: seq<Member>, m: Member)
    requires Admissible(rules, entries)
  {
    && Sound(rules, m)
    && rules.fold(NameOf(m)) !in Folds(rules, entries)
    && |entries| + 1 <= MAX_FILES
    && SizeSum(entries) + m.size <= MAX_UNPACKED_BYTES
  }

  lemma {:induction false} SizeOfOneMore(entries: seq<Member>, m: Member)
    ensures SizeSum(entries + [m]) == SizeSum(entries) + m.size
  {
    assert (entries + [m])[..|entries|] == entries;
  }

  lemma AcceptedIsAdmissible(rules: Rules, entries: seq<Member>, m: Member)
    requires Admissible(rules, entries) && Accepts(rules, entries, m)
    ensures Admissible(rules, entries + [m])
  {
    hide ValidName, SizeSum;
    var all := entries + [m];
    SizeOfOneMore(entries, m);
    forall n: nat | n <= |all| ensures SizeSum(all[..n]) <= MAX_UNPACKED_BYTES {
      if n <= |entries| {
        assert all[..n] == entries[..n];
      } else {
        assert all[..n] == all;
      }
    }
    forall i, j | 0 <= i < j < |all| ensures NoClash(rules, all[i], all[j]) {
      if j == |entries| {
        assert rules.fold(NameOf(entries[i])) in Folds(rules, entries);
      } else {
        assert NoClash(rules, entries[i], entries[j]);
      }
    }
  }

  lemma AdmissibleIsAccepted(rules: Rules, entries: seq<Member>, m: Member)
    requires Admissible(rules, entries) && Admissible(rules, entries + [m])
    ensures Accepts(rules, entries, m)
  {
    hide ValidName, SizeSum;
    var all := entries + [m];
    assert all[|entries|] == m;
    SizeOfOneMore(entries, m);
    assert all[..|all|] == all;
    forall i | 0 <= i < |entries| ensures rules.fold(NameOf(entries[i])) != rules.fold(NameOf(m)) {
      assert all[i] == entries[i];
      assert NoClash(rules, all[i], all[|entries|]);
    }
  }

  lemma PrefixAdmissible(rules: Rules, entries: seq<Member>, n: nat)
    requires Admissible(rules, entries) && n <= |entries|
    ensures Admissible(rules, entries[..n])
  {
    hide ValidName, SizeSum;
    forall k: nat | k <= n ensures SizeSum(entries[..n][..k]) <= MAX_UNPACKED_BYTES {
      assert entries[..n][..k] == entries[..k];
    }
  }

  lemma AdmissibleNames(rules: Rules, entries: seq<Member>)
    requires Admissible(rules, entries)
    ensures DistinctNames(entries)
  {
    hide ValidName, SizeSum;
    assert forall i :: 0 <= i < |entries| ==> Sound(rules, entries[i]);
    forall i, j | 0 <= i < j < |entries| ensures NameOf(entries[i]) != NameOf(entries[j]) {
      assert NoClash(rules, entries[i], entries[j]);
    }
  }

  lemma EntriesStep(archive: seq<Member>, i: nat)
    requires i < |archive|
    ensures Entries(archive[..i + 1]) ==
      if IsRoot(archive[i]) then Entries(archive[..i]) else Entries(archive[..i]) + [archive[i]]
  {
    assert archive[..i + 1][..i] == archive[..i];
  }

  lemma {:induction false} EntriesGrow(archive: seq<Member>, n: nat)
    requires n <= |archive|
    ensures Entries(archive[..n]) <= Entries(archive)
    decreases |archive| - n
  {
    if n < |archive| {
      EntriesGrow(archive, n + 1);
      EntriesStep(archive, n);
    } else {
      assert archive[..n] == archive;
    }
  }

  /** A member that is not accepted makes the whole archive inadmissible. */
  lemma {:induction false} RefusedForGood(rules: Rules, archive: seq<Member>, i: nat)
    requires i < |archive| && !IsRoot(archive[i])
    requires Admissible(rules, Entries(archive[..i])) && !Accepts(rules, Entries(archive[..i]), archive[i])
    ensures !Admissible(rules, Entries(archive))
  {
    hide Admissible, Accepts, Entries;
    var entries := Entries(archive[..i]);
    if Admissible(rules, Entries(archive)) {
      EntriesGrow(archive, i + 1);
      EntriesStep(archive, i);
      var n := |entries| + 1;
      PrefixAdmissible(rules, Entries(archive), n);
      assert Entries(archive)[..n] == entries + [archive[i]];
      AdmissibleIsAccepted(rules, entries, archive[i]);
    }
  }

  lemma {:induction false} TableOfOneMore(rules: Rules, entries: seq<Member>, m: Member)
    requires Admissible(rules, entries) && Sound(rules, m)
    ensures TableOf(entries + [m]) == TableOf(entries)[NameOf(m) := m]
    ensures Folds(rules, entries + [m]) == Folds(rules, entries) + {rules.fold(NameOf(m))}
  {
    hide ValidName, SizeSum;
    var all := entries + [m];
    assert all[..|entries|] == entries;
    assert forall i :: 0 <= i < |entries| ==> all[i] == entries[i];
    assert all[|entries|] == m;
  }

  /** The reading loop: the entries by name, in archive order, or a refusal. */
  method ReadMembers(rules: Rules, archive: seq<Member>) returns (members: Table, items: seq<Member>, refused: bool)
    ensures refused <==> !Admissible(rules, Entries(archive))
    ensures !refused ==> items == Entries(archive) && DistinctNames(items) && members == TableOf(items)
  {
    hide Admissible, Accepts, Folds, TableOf, ValidName, Entries, SizeSum;
    members, items, refused := map[], [], true;
    var casefolded: set<Path> := {};
    var total := 0;
    NothingRead(rules, archive);
    for i := 0 to |archive|
      invariant items == Entries(archive[..i]) && Admissible(rules, items)
      invariant forall k :: 0 <= k < |items| ==> InTree(items[k])
      invariant members == TableOf(items) && casefolded == Folds(rules, items) && total == SizeSum(items)
      invariant refused
    {
      var member := archive[i];
      EntriesStep(archive, i);
      if !IsRoot(member) {
        AcceptsMeans(rules, items, member);
        if !Sound(rules, member) || rules.fold(NameOf(member)) in casefolded {
          RefusedForGood(rules, archive, i);
          return;
        }
        var name := NameOf(member);
        TableOfOneMore(rules, items, member);
        SizeOfOneMore(items, member);
        CountAfter(rules, items, member);
        members := members[name := member];
        casefolded := casefolded + {rules.fold(name)};
        total := total + member.size;
        if |members| > MAX_FILES || total > MAX_UNPACKED_BYTES {
          RefusedForGood(rules, archive, i);
          return;
        }
        AcceptedIsAdmissible(rules, items, member);
        items := items + [member];
      }
    }
    assert archive[..|archive|] == archive;
    AdmissibleNames(rules, items);
    refused := false;
  }

  lemma NothingRead(rules: Rules, archive: seq<Member>)
    ensures Entries(archive[..0]) == [] && Admissible(rules, [])
    ensures TableOf([]) == map[] && Folds(rules, []) == {} && SizeSum([]) == 0
  {
    assert forall n: nat :: n <= 0 ==> SizeSum([][..n]) <= MAX_UNPACKED_BYTES by {
      var none: seq<Member> := [];
      assert none[..0] == none;
    }
  }

  lemma {:induction false} AcceptsMeans(rules: Rules, entries: seq<Member>, m: Member)
    requires Admissible(rules, entries)
    ensures forall i :: 0 <= i < |entries| ==> InTree(entries[i])
    ensures Accepts(rules, entries, m) <==>
      && Sound(rules, m) && rules.fold(NameOf(m)) !in Folds(rules, entries)
      && |entries| + 1 <= MAX_FILES && SizeSum(entries) + m.size <= MAX_UNPACKED_BYTES
  {
    assert forall i :: 0 <= i < |entries| ==> Sound(rules, entries[i]);
  }

  /** Names that fold differently are different, so the dictionary counts every member. */
  lemma {:induction false} CountAfter(rules: Rules, entries: seq<Member>, m: Member)
    requires Admissible(rules, entries) && Sound(rules, m)
    requires forall i :: 0 <= i < |entries| ==> InTree(entries[i])
    requires rules.fold(NameOf(m)) !in Folds(rules, entries)
    ensures |TableOf(entries)[NameOf(m) := m]| == |entries| + 1
  {
    hide ValidName, SizeSum, TableOf, Admissible;
    var all := entries + [m];
    AdmissibleNames(rules, entries);
    forall i | 0 <= i < |entries| ensures NameOf(entries[i]) != NameOf(m) {
      assert rules.fold(NameOf(entries[i])) in Folds(rules, entries);
    }
    assert forall i :: 0 <= i < |entries| ==> all[i] == entries[i];
    assert DistinctNames(all);
    TableSize(all);
    TableOfOneMore(rules, entries, m);
  }

  // ----- Resolving every alias -----

  /** One file to write: its name, and the member whose bytes it gets. */
  datatype Copy = Copy(name: Path, source: Path)

  ghost predicate AllResolve(members: Table, names: seq<Path>)
    requires Named(members)
  {
    forall i :: 0 <= i < |names| ==> Regular(members, names[i], {}).Ok?
  }

  ghost predicate AreCopies(members: Table, names: seq<Path>, files: seq<Copy>)
    requires Named(members)
  {
    && |files| == |names|
    && forall i :: 0 <= i < |names| ==> files[i].name == names[i] && Regular(members, names[i], {}) == Ok(files[i].source)
  }

  lemma FileNamesStep(items: seq<Member>, i: nat)
    requires DistinctNames(items) && i < |items|
    ensures FileNames(items[..i + 1]) ==
      if items[i].kind.Directory? then FileNames(items[..i]) else FileNames(items[..i]) + [NameOf(items[i])]
  {
    assert items[..i + 1][..i] == items[..i];
  }

  lemma {:induction false} FileNamesGrow(items: seq<Member>, n: nat)
    requires DistinctNames(items) && n <= |items|
    ensures FileNames(items[..n]) <= FileNames(items)
    decreases |items| - n
  {
    if n < |items| {
      FileNamesGrow(items, n + 1);
      FileNamesStep(items, n);
    } else {
      assert items[..n] == items;
    }
  }

  lemma {:induction false} UnresolvedForGood(members: Table, items: seq<Member>, i: nat)
    requires Named(members) && DistinctNames(items) && i < |items| && !items[i].kind.Directory?
    requires Regular(members, NameOf(items[i]), {}).Err?
    ensures !AllResolve(members, FileNames(items))
  {
    hide Regular, FileNames;
    FileNamesStep(items, i);
    FileNamesGrow(items, i + 1);
    var k := |FileNames(items[..i])|;
    assert FileNames(items)[k] == NameOf(items[i]);
  }

  method ResolveAll(members: Table, items: seq<Member>) returns (files: seq<Copy>, refused: bool)
    requires Named(members) && DistinctNames(items)
    ensures refused <==> !AllResolve(members, FileNames(items))
    ensures !refused ==> AreCopies(members, FileNames(items), files)
  {
    hide Regular, FileNames;
    files, refused := [], true;
    assert FileNames(items[..0]) == [] by {
      NoFileNames();
    }
    for i := 0 to |items|
      invariant refused && AreCopies(members, FileNames(items[..i]), files)
    {
      var name := NameOf(items[i]);
      FileNamesStep(items, i);
      if !items[i].kind.Directory? {
        var resolved := Regular(members, name, {});
        if resolved.Err? {
          UnresolvedForGood(members, items, i);
          return;
        }
        files := files + [Copy(name, resolved.value)];
      }
    }
    assert items[..|items|] == items;
    refused := false;
  }

  lemma NoFileNames()
    ensures FileNames([]) == []
  {
  }

  // ----- Files that would shadow a directory -----

  predicate Shadows(members: Table, name: Path, n: nat) {
    0 < n < |name| && name[..n] in members && !members[name[..n]].kind.Directory?
  }

  ghost predicate NoneShadowed(members: Table, names: seq<Path>) {
    forall i, n :: 0 <= i < |names| && 0 <= n < |names[i]| ==> !Shadows(members, names[i], n)
  }

  /** No name is a proper ancestor of another. */
  ghost predicate PrefixFree(names: seq<Path>) {
    forall i, j :: 0 <= i < |names| && 0 <= j < |names| ==> !(names[i] < names[j])
  }

  lemma {:induction false} NonDirectoryIsFileName(entries: seq<Member>, name: Path)
    requires DistinctNames(entries)
    ensures name in FileNames(entries) <==>
      name in TableOf(entries) && !TableOf(entries)[name].kind.Directory?
  {
    FileNameIn(entries, name);
    TableKnows(entries, name);
    hide TableOf, FileNames;
    if name in FileNames(entries) {
      var i :| 0 <= i < |entries| && NameOf(entries[i]) == name && !entries[i].kind.Directory?;
      TableAt(entries, i);
    }
  }

  lemma {:induction false} AncestorShadows(entries: seq<Member>, ancestor: Path, name: Path)
    requires DistinctNames(entries) && ancestor in FileNames(entries) && ancestor < name
    ensures Shadows(TableOf(entries), name, |ancestor|)
  {
    NonDirectoryIsFileName(entries, ancestor);
    FileNameIn(entries, ancestor);
    assert name[..|ancestor|] == ancestor;
  }

  lemma {:induction false} ShadowIsAncestor(entries: seq<Member>, name: Path, n: nat)
    requires DistinctNames(entries) && Shadows(TableOf(entries), name, n)
    ensures name[..n] in FileNames(entries) && name[..n] < name
  {
    NonDirectoryIsFileName(entries, name[..n]);
  }

  /** Looking every ancestor up in the member table finds exactly the names that are ancestors of another. */
  lemma {:induction false} ShadowingIsAncestry(entries: seq<Member>)
    requires DistinctNames(entries)
    ensures NoneShadowed(TableOf(entries), FileNames(entries)) <==> PrefixFree(FileNames(entries))
  {
    hide TableOf, FileNames, Shadows;
    var names := FileNames(entries);
    if !PrefixFree(names) {
      var i, j :| 0 <= i < |names| && 0 <= j < |names| && names[i] < names[j];
      AncestorShadows(entries, names[i], names[j]);
    }
    if !NoneShadowed(TableOf(entries), names) {
      var i, n :| 0 <= i < |names| && 0 <= n < |names[i]| && Shadows(TableOf(entries), names[i], n);
      ShadowIsAncestor(entries, names[i], n);
      var k :| 0 <= k < |names| && names[k] == names[i][..n];
    }
  }

  method CheckShadows(members: Table, files: seq<Copy>, ghost names: seq<Path>)
    returns (aliases: map<Path, Path>, refused: bool)
    requires Named(members) && AreCopies(members, names, files)
    requires forall i, j :: 0 <= i < j < |names| ==> names[i] != names[j]
    requires forall i :: 0 <= i < |names| ==> names[i] in members
    ensures refused <==> !NoneShadowed(members, names)
    ensures !refused ==> forall i :: 0 <= i < |files| ==>
      (names[i] in aliases <==> !members[names[i]].kind.File?)
      && (names[i] in aliases ==> aliases[names[i]] == files[i].source)
    ensures !refused ==> aliases.Keys <= set name | name in names
  {
    hide Regular;
    aliases, refused := map[], true;
    for i := 0 to |files|
      invariant refused
      invariant forall j, n :: 0 <= j < i && 0 <= n < |names[j]| ==> !Shadows(members, names[j], n)
      invariant forall j :: 0 <= j < i ==>
        (names[j] in aliases <==> !members[names[j]].kind.File?)
        && (names[j] in aliases ==> aliases[names[j]] == files[j].source)
      invariant aliases.Keys <= set name | name in names[..i]
    {
      var name := files[i].name;
      for n := |name| downto 0
        invariant forall k :: n <= k < |name| ==> !Shadows(members, name, k)
      {
        if n > 0 && name[..n] in members && !members[name[..n]].kind.Directory? {
          assert Shadows(members, names[i], n);
          return;
        }
      }
      if !members[name].kind.File? {
        aliases := aliases[name := files[i].source];
      }
    }
    refused := false;
  }

  // ----- The materialised size -----

  ghost function CopiedBytes(members: Table, names: seq<Path>): int
    requires Named(members) && AllResolve(members, names)
  {
    if names == [] then 0
    else
      var n := |names| - 1;
      assert forall i :: 0 <= i < n ==> names[..n][i] == names[i];
      CopiedBytes(members, names[..n]) + members[Regular(members, names[n], {}).value].size
  }

  method SumSizes(members: Table, files: seq<Copy>, ghost names: seq<Path>) returns (total: int)
    requires Named(members) && AreCopies(members, names, files)
    ensures AllResolve(members, names) && total == CopiedBytes(members, names)
  {
    hide Regular;
    total := 0;
    for i := 0 to |files|
      invariant AllResolve(members, names[..i]) && total == CopiedBytes(members, names[..i])
    {
      assert names[..i + 1][..i] == names[..i];
      assert Regular(members, names[i], {}) == Ok(files[i].source);
      total := total + members[files[i].source].size;
    }
    assert names[..|files|] == names;
  }

  // ----- The output directory -----

  class Output {
    var present: bool
    var files: map<Path, Path>
    var directories: set<Path>

    ghost predicate Empty()
      reads this
    {
      files == map[] && directories == {}
    }

    constructor Absent()
      ensures !present && Empty()
    {
      present, files, directories := false, map[], {};
    }

    /** What creating the parents and opening the file exclusively needs. */
    ghost predicate Writable(destination: Path)
      reads this
    {
      && destination !in files && destination !in directories
      && forall n :: 0 < n < |destination| ==> destination[..n] !in files
    }

    /** Creates the missing parents, then the file, with the bytes of an archive member. */
    method Write(destination: Path, source: Path) returns (written: bool)
      modifies `files, `directories
      ensures written <==> old(Writable(destination))
      ensures files == if written then old(files)[destination := source] else old(files)
      ensures written ==> forall d ::
        d in directories <==> d in old(directories) || (d != [] && d < destination)
    {
      written := false;
      var n := 1;
      while n < |destination|
        invariant n >= 1
        invariant files == old(files) && !written
        invariant forall k :: 0 < k < n && k < |destination| ==> destination[..k] !in files
        invariant forall d :: d in directories <==>
          d in old(directories) || (d != [] && d < destination && |d| < n)
      {
        if destination[..n] in files {
          return;
        }
        directories := directories + {destination[..n]};
        assert forall d :: d < destination && |d| == n ==> d == destination[..n];
        n := n + 1;
      }
      if destination in files || destination in directories {
        return;
      }
      files := files[destination := source];
      written := true;
    }
  }

  /** A directory that is there because of one of the names. */
  predicate LeadsInto(d: Path, names: seq<Path>) {
    d != [] && exists i :: 0 <= i < |names| && d < names[i]
  }

  /** These copies are the files, and there are no others. */
  ghost predicate AreFiles(files: map<Path, Path>, copies: seq<Copy>) {
    && (forall name :: name in files <==> name in NamesOf(copies))
    && forall i :: 0 <= i < |copies| ==> copies[i].name in files && files[copies[i].name] == copies[i].source
  }

  /** The output after writing these copies, and nothing else. */
  ghost predicate Holds(files: map<Path, Path>, directories: set<Path>, copies: seq<Copy>) {
    && AreFiles(files, copies)
    && forall d :: d in directories <==> LeadsInto(d, NamesOf(copies))
  }

  function NamesOf(copies: seq<Copy>): (names: seq<Path>)
    ensures |names| == |copies| && forall i :: 0 <= i < |copies| ==> names[i] == copies[i].name
  {
    seq(|copies|, i requires 0 <= i < |copies| => copies[i].name)
  }

  /** The file cannot be created: its name is taken, or one of its ancestors is a file. */
  ghost predicate Blocked(files: map<Path, Path>, directories: set<Path>, name: Path) {
    || name in files || name in directories
    || exists k :: 0 < k < |name| && name[..k] in files
  }

  lemma AncestorBlocks(files: map<Path, Path>, directories: set<Path>, ancestor: Path, name: Path)
    requires ancestor in files && ancestor != []
    ensures ancestor < name ==> Blocked(files, directories, name)
  {
    assert ancestor < name ==> name[..|ancestor|] == ancestor;
  }

  lemma DescendantBlocks(
      files: map<Path, Path>, directories: set<Path>, copies: seq<Copy>, i: nat, name: Path)
    requires Holds(files, directories, copies) && i < |copies| && name != []
    ensures name < copies[i].name ==> Blocked(files, directories, name)
  {
    assert NamesOf(copies)[i] == copies[i].name;
    assert name < copies[i].name ==> LeadsInto(name, NamesOf(copies));
  }

  lemma NameNotTaken(files: map<Path, Path>, directories: set<Path>, copies: seq<Copy>, n: nat)
    requires n < |copies| && Holds(files, directories, copies[..n]) && Distinct(NamesOf(copies))
    ensures copies[n].name !in files
  {
    var names := NamesOf(copies);
    var before := NamesOf(copies[..n]);
    forall i | 0 <= i < n ensures before[i] != copies[n].name {
      assert before[i] == names[i] != names[n];
    }
  }

  /** Among distinct names, only an ancestor or a descendant already written is in the way. */
  lemma BlockedByRelative(
      files: map<Path, Path>, directories: set<Path>, copies: seq<Copy>, n: nat)
    requires n < |copies| && Holds(files, directories, copies[..n])
    requires Distinct(NamesOf(copies)) && Blocked(files, directories, copies[n].name)
    ensures !PrefixFree(NamesOf(copies))
  {
    var names := NamesOf(copies);
    var before := NamesOf(copies[..n]);
    var name := names[n];
    assert forall i :: 0 <= i < n ==> before[i] == names[i];
    NameNotTaken(files, directories, copies, n);
    if k :| 0 < k < |name| && name[..k] in files {
      var i :| 0 <= i < |before| && before[i] == name[..k];
      assert names[i] < names[n];
    } else {
      var i :| 0 <= i < |before| && name < before[i];
      assert names[n] < names[i];
    }
  }

  lemma FreeStaysFree(
      files: map<Path, Path>, directories: set<Path>, copies: seq<Copy>, n: nat)
    requires n < |copies| && Holds(files, directories, copies[..n])
    requires PrefixFree(NamesOf(copies[..n])) && !Blocked(files, directories, copies[n].name)
    requires copies[n].name != [] && forall i :: 0 <= i < n ==> copies[i].name != []
    ensures PrefixFree(NamesOf(copies[..n + 1]))
  {
    var before := NamesOf(copies[..n]);
    var names := NamesOf(copies[..n + 1]);
    assert forall i :: 0 <= i < n ==> names[i] == before[i] == copies[..n][i].name;
    hide Holds, Blocked;
    forall i, j | 0 <= i < |names| && 0 <= j < |names| ensures !(names[i] < names[j]) {
      if i < n && j == n {
        WrittenIsFile(files, directories, copies[..n], i);
        AncestorBlocks(files, directories, names[i], names[j]);
      } else if i == n && j < n {
        DescendantBlocks(files, directories, copies[..n], j, names[i]);
      }
    }
  }

  lemma WrittenIsFile(files: map<Path, Path>, directories: set<Path>, copies: seq<Copy>, i: nat)
    requires Holds(files, directories, copies) && i < |copies|
    ensures copies[i].name in files
  {
  }

  lemma OneMoreHeld(
      files: map<Path, Path>, directories: set<Path>, now: set<Path>, copies: seq<Copy>, copy: Copy)
    requires Holds(files, directories, copies) && copy.name !in files
    requires forall d :: d in now <==> d in directories || (d != [] && d < copy.name)
    ensures Holds(files[copy.name := copy.source], now, copies + [copy])
  {
    var all := copies + [copy];
    var names := NamesOf(copies);
    assert NamesOf(all) == names + [copy.name];
    forall d ensures LeadsInto(d, names + [copy.name]) <==> LeadsInto(d, names) || (d != [] && d < copy.name) {
      assert (names + [copy.name])[|names|] == copy.name;
      assert forall i :: 0 <= i < |names| ==> (names + [copy.name])[i] == names[i];
    }
  }

  /**
   Writing distinct names succeeds exactly when none is an ancestor of another, in whatever order they come, and then
   leaves exactly those files. Otherwise it stops at some name after the first and leaves the files before it.
   */
  method WriteAll(output: Output, copies: seq<Copy>) returns (complete: bool)
    requires Distinct(NamesOf(copies)) && forall i :: 0 <= i < |copies| ==> copies[i].name != []
    requires output.Empty()
    modifies output`files, output`directories
    ensures complete <==> PrefixFree(NamesOf(copies))
    ensures complete ==> Holds(output.files, output.directories, copies)
    ensures !complete ==> exists n :: 0 < n < |copies| && AreFiles(output.files, copies[..n])
  {
    hide AreFiles, Holds, PrefixFree, NamesOf, Distinct;
    complete := false;
    assert Holds(output.files, output.directories, copies[..0]) && PrefixFree(NamesOf(copies[..0])) by {
      NothingHeld();
    }
    for i := 0 to |copies|
      invariant Holds(output.files, output.directories, copies[..i]) && PrefixFree(NamesOf(copies[..i]))
      invariant !complete
    {
      ghost var files, directories := output.files, output.directories;
      assert output.Writable(copies[i].name) <==> !Blocked(files, directories, copies[i].name);
      var written := output.Write(copies[i].name, copies[i].source);
      if !written {
        BlockedByRelative(files, directories, copies, i);
        BlockedBySomething(files, directories, copies[..i], copies[i].name);
        return;
      }
      FreeStaysFree(files, directories, copies, i);
      OneMoreHeld(files, directories, output.directories, copies[..i], copies[i]);
      assert copies[..i + 1] == copies[..i] + [copies[i]];
    }
    assert copies[..|copies|] == copies;
    complete := true;
  }

  lemma BlockedBySomething(
      files: map<Path, Path>, directories: set<Path>, copies: seq<Copy>, name: Path)
    requires Holds(files, directories, copies) && Blocked(files, directories, name)
    ensures copies != [] && AreFiles(files, copies)
  {
  }

  lemma NothingHeld()
    ensures Holds(map[], {}, []) && PrefixFree(NamesOf([]))
  {
  }

  // ----- The whole extraction -----

  /** Every alias resolves, no file is an ancestor of another, and the copies fit. */
  ghost predicate Materialisable(entries: seq<Member>)
    requires DistinctNames(entries) && Named(TableOf(entries))
  {
    && AllResolve(TableOf(entries), FileNames(entries))
    && PrefixFree(FileNames(entries))
    && CopiedBytes(TableOf(entries), FileNames(entries)) <= MAX_UNPACKED_BYTES
  }

  lemma {:induction false} TableNamed(entries: seq<Member>)
    requires DistinctNames(entries)
    ensures Named(TableOf(entries))
  {
    forall name | name in TableOf(entries) ensures name != [] {
      TableKnows(entries, name);
    }
  }

  ghost predicate Acceptable(rules: Rules, archive: seq<Member>) {
    var entries := Entries(archive);
    && Admissible(rules, entries)
    && DistinctNames(entries) && Named(TableOf(entries))
    && Materialisable(entries)
  }

  lemma {:induction false} FileNamesFacts(entries: seq<Member>)
    requires DistinctNames(entries)
    ensures Named(TableOf(entries))
    ensures forall i, j :: 0 <= i < j < |FileNames(entries)| ==> FileNames(entries)[i] != FileNames(entries)[j]
    ensures forall i :: 0 <= i < |FileNames(entries)| ==> FileNames(entries)[i] in TableOf(entries)
  {
    TableNamed(entries);
    hide TableOf, FileNames;
    forall i, j | 0 <= i < j < |FileNames(entries)| ensures FileNames(entries)[i] != FileNames(entries)[j] {
      FileNamesDistinct(entries, i, j);
    }
    forall i | 0 <= i < |FileNames(entries)| ensures FileNames(entries)[i] in TableOf(entries) {
      NonDirectoryIsFileName(entries, FileNames(entries)[i]);
    }
  }

  /** Every file written and every source copied has a portable name inside the tree: no `..`, `.` or empty part. */
  lemma {:induction false} FilesStayInside(rules: Rules, archive: seq<Member>, name: Path)
    requires Acceptable(rules, archive) && name in FileNames(Entries(archive))
    ensures var members := TableOf(Entries(archive));
      && ValidName(rules, name) && ValidName(rules, Regular(members, name, {}).value)
      && members[Regular(members, name, {}).value].kind.File?
  {
    hide Entries, TableOf, FileNames, Regular, ValidName, CopiedBytes, PrefixFree;
    var entries := Entries(archive);
    var members := TableOf(entries);
    assert forall i :: 0 <= i < |entries| ==> Sound(rules, entries[i]);
    FileNameIn(entries, name);
    var k :| 0 <= k < |FileNames(entries)| && FileNames(entries)[k] == name;
    var source := Regular(members, FileNames(entries)[k], {}).value;
    TableKnows(entries, source);
    assert IsFile(members, source);
  }

  lemma {:induction false} HeldCopies(
      held: map<Path, Path>, directories: set<Path>, members: Table, names: seq<Path>, files: seq<Copy>)
    requires Named(members) && AreCopies(members, names, files) && Holds(held, directories, files)
    ensures held.Keys == set name | name in names
    ensures forall name :: name in held ==> Regular(members, name, {}) == Ok(held[name])
    ensures forall i :: 0 <= i < |files| ==> names[i] in held && held[names[i]] == files[i].source
  {
    hide Regular;
    assert NamesOf(files) == names;
    forall name | name in held ensures Regular(members, name, {}) == Ok(held[name]) {
      var i :| 0 <= i < |names| && names[i] == name;
    }
  }

  /**
   Every refusal comes before the first write; an accepted archive is written completely, each name with the bytes of
   the regular member it resolves to, and the aliases are reported with their sources.
   */
  method ExtractRuntime(rules: Rules, archive: seq<Member>, output: Output)
    returns (result: Result<map<Path, Path>, Refusal>)
    requires !output.present ==> output.Empty()
    modifies output
    ensures result.Err? ==>
      output.present == old(output.present) && output.files == old(output.files)
      && output.directories == old(output.directories)
    ensures result.Ok? <==> !old(output.present) && Acceptable(rules, archive)
    ensures result.Ok? ==> output.present && output.files.Keys == set name | name in FileNames(Entries(archive))
    ensures result.Ok? ==> forall name :: name in output.files ==>
      Regular(TableOf(Entries(archive)), name, {}) == Ok(output.files[name])
    ensures result.Ok? ==> forall name :: name in result.value <==>
      name in output.files && !TableOf(Entries(archive))[name].kind.File?
    ensures result.Ok? ==> forall name :: name in result.value ==> result.value[name] == output.files[name]
  {
    hide Admissible, TableOf, FileNames, Entries, Regular, CopiedBytes, PrefixFree, NoneShadowed, IsFile, Shadows;
    if output.present {
      return Err(OutputExists);
    }
    var members, items, invalid := ReadMembers(rules, archive);
    if invalid {
      return Err(InvalidMember);
    }
    FileNamesFacts(items);
    ghost var names := FileNames(items);
    var files, unresolved := ResolveAll(members, items);
    if unresolved {
      return Err(UnresolvedAlias);
    }
    var aliases, shadowed := CheckShadows(members, files, names);
    ShadowingIsAncestry(items);
    if shadowed {
      return Err(Shadowed);
    }
    var total := SumSizes(members, files, names);
    if total > MAX_UNPACKED_BYTES {
      return Err(MaterialisedTooLarge);
    }
    output.present := true;
    assert NamesOf(files) == names;
    var complete := WriteAll(output, files);
    assert complete;
    HeldCopies(output.files, output.directories, members, names, files);
    result := Ok(aliases);
  }
}
