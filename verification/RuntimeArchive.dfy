/**
 Materialising an interpreter archive without links (scripts/prepare_managed_resources.py, extract_runtime). Every
 alias is replaced by a copy of the regular file it resolves to. Member names are given split at "/"; what Unicode
 and the device-name expression say about a name is a parameter.
 */
module RuntimeArchive {
  import opened Chains
  import opened Strings
  import opened Wrappers

  const MAX_UNPACKED_BYTES := 8 * 1024 * 1024 * 1024
  const MAX_FILES := 100000

  type Path = seq<string>

  datatype Kind = File | Directory | Symlink(link: string) | Hardlink(link: string) | Special

  /** One tar member; the path is its whole name without trailing slashes. */
  datatype Member = Member(path: Path, kind: Kind, size: int)

  /** Case folding of a name, the reserved device names, and the composed Unicode form. */
  datatype Rules = Rules(fold: Path -> Path, device: string -> bool, composed: Path -> bool)

  datatype Refusal =
    | OutputExists | InvalidMember
    | UnresolvedAlias | ExternalAlias | EscapingAlias | Shadowed | MaterialisedTooLarge

  // ----- Names (src/powercontext/ops/resources.py, _relative) -----

  function NameLength(path: Path): nat {
    if path == [] then 0
    else if |path| == 1 then |path[0]|
    else |path[0]| + 1 + NameLength(path[1..])
  }

  predicate ValidPart(rules: Rules, part: string) {
    && part != "" && part != "." && part != ".."
    && part[|part| - 1] != '.' && part[|part| - 1] != ' '
    && !rules.device(part)
    && forall i :: 0 <= i < |part| ==> part[i] !in "\\:<>\"|?*" && part[i] >= ' '
  }

  predicate ValidName(rules: Rules, name: Path) {
    && name != [] && NameLength(name) <= 1024 && rules.composed(name)
    && forall i :: 0 <= i < |name| ==> ValidPart(rules, name[i])
  }

  // ----- Aliases -----

  /** One component of posixpath.normpath on a relative path. */
  function Push(done: Path, part: string): Path {
    if part == "" || part == "." then done
    else if part != ".." || done == [] || done[|done| - 1] == ".." then done + [part]
    else done[..|done| - 1]
  }

  function Normalise(parts: Path): Path {
    if parts == [] then [] else Push(Normalise(parts[..|parts| - 1]), parts[|parts| - 1])
  }

  predicate IsAlias(member: Member) {
    member.kind.Symlink? || member.kind.Hardlink?
  }

  /** The member name an alias points at: a symlink relative to its own directory, a hard link from the root. */
  function LinkTarget(name: Path, member: Member): Result<Path, Refusal>
    requires name != [] && IsAlias(member)
  {
    var link := member.kind.link;
    if link == "" || link[0] == '/' || '\\' in link || ':' in link then Err(ExternalAlias)
    else
      var parts := Split(link, '/');
      var resolved :=
        if member.kind.Symlink? then Normalise(["python"] + name[..|name| - 1] + parts) else Normalise(parts);
      if |resolved| >= 2 && resolved[0] == "python" then Ok(resolved[1..]) else Err(EscapingAlias)
  }

  type Table = map<Path, Member>

  predicate Named(members: Table) {
    forall name :: name in members ==> name != []
  }

  predicate IsFile(members: Table, name: Path) {
    name in members && members[name].kind.File?
  }

  /** The regular member an alias resolves to, with a memory of the aliases already followed. */
  function Regular(members: Table, name: Path, seen: set<Path>): (result: Result<Path, Refusal>)
    requires Named(members)
    ensures result.Ok? ==> IsFile(members, result.value)
    decreases |members.Keys - seen|
  {
    if name !in members || name in seen || members[name].kind.Directory? || members[name].kind.Special? then
      Err(UnresolvedAlias)
    else if members[name].kind.File? then Ok(name)
    else
      match LinkTarget(name, members[name])
      case Err(refusal) => Err(refusal)
      case Ok(target) =>
        assert members.Keys - (seen + {name}) == (members.Keys - seen) - {name};
        Regular(members, target, seen + {name})
  }

  function Next(members: Table, name: Path): Option<Path>
    requires Named(members)
  {
    if name in members && IsAlias(members[name]) then
      match LinkTarget(name, members[name])
      case Err(_) => None
      case Ok(target) => Some(target)
    else None
  }

  function Following(members: Table): Path -> Option<Path>
    requires Named(members)
  {
    name => Next(members, name)
  }

  /** Where following aliases with no memory leads. */
  function Chase(members: Table, name: Path, steps: nat): Path
    requires Named(members)
  {
    After(Following(members), name, steps)
  }

  predicate LeadsTo(members: Table, name: Path, file: Path, steps: nat)
    requires Named(members)
  {
    Chase(members, name, steps) == file && IsFile(members, file)
  }

  lemma ResolvedIsReached(members: Table, name: Path, seen: set<Path>) returns (steps: nat)
    requires Named(members) && Regular(members, name, seen).Ok?
    ensures LeadsTo(members, name, Regular(members, name, seen).value, steps)
    decreases |members.Keys - seen|
  {
    hide LinkTarget;
    if members[name].kind.File? {
      steps := 0;
    } else {
      var target := LinkTarget(name, members[name]).value;
      assert members.Keys - (seen + {name}) == (members.Keys - seen) - {name};
      var more := ResolvedIsReached(members, target, seen + {name});
      assert Following(members)(name) == Some(target);
      steps := more + 1;
    }
  }

  lemma {:induction false} ReachedIsResolved(members: Table, name: Path, file: Path, steps: nat, seen: set<Path>)
    requires Named(members) && LeadsTo(members, name, file, steps)
    requires forall k: nat :: k < steps ==> !IsFile(members, Chase(members, name, k))
    requires forall k: nat :: k <= steps ==> Chase(members, name, k) !in seen
    ensures Regular(members, name, seen) == Ok(file)
    decreases steps
  {
    hide LinkTarget;
    assert Chase(members, name, 0) == name;
    if steps > 0 {
      assert Next(members, name).Some?;
      var target := Next(members, name).value;
      forall k: nat | k < steps
        ensures Chase(members, target, k) == Chase(members, name, k + 1) != name
      {
        assert !IsFile(members, Chase(members, name, steps - (k + 1)));
        if Chase(members, name, k + 1) == name {
          ShortCut(Following(members), name, 0, k + 1, steps);
        }
      }
      ReachedIsResolved(members, target, file, steps - 1, seen + {name});
    }
  }

  /** On every link graph: resolution finds a file exactly when following aliases leads to that regular member. */
  lemma {:induction false} RegularExact(members: Table, name: Path, file: Path)
    requires Named(members)
    ensures Regular(members, name, {}) == Ok(file) <==> exists steps: nat :: LeadsTo(members, name, file, steps)
  {
    if Regular(members, name, {}) == Ok(file) {
      var steps := ResolvedIsReached(members, name, {});
      assert LeadsTo(members, name, file, steps);
    }
    if steps: nat :| LeadsTo(members, name, file, steps) {
      var first := First(Following(members), name, (at: Path) => IsFile(members, at), steps);
      forall k: nat | k < first ensures !IsFile(members, Chase(members, name, k)) {
        assert !IsFile(members, After(Following(members), name, k));
      }
      var found := Chase(members, name, first);
      AfterSum(Following(members), name, first, steps - first);
      assert Following(members)(found) == None;
      assert found == file;
      ReachedIsResolved(members, name, file, first, {});
    }
  }

  /** A normalised path has no empty or `.` part, and `..` only at its front. */
  predicate Clean(path: Path) {
    && (forall i :: 0 <= i < |path| ==> path[i] != "" && path[i] != ".")
    && forall i, j :: 0 <= i < j < |path| && path[j] == ".." ==> path[i] == ".."
  }

  lemma {:induction false} NormaliseIsClean(parts: Path)
    ensures Clean(Normalise(parts))
  {
    if parts != [] {
      NormaliseIsClean(parts[..|parts| - 1]);
    }
  }

  /** What an alias points at is inside the install tree: a nonempty name without `..`, `.` or empty parts. */
  lemma TargetStaysInside(name: Path, member: Member)
    requires name != [] && IsAlias(member) && LinkTarget(name, member).Ok?
    ensures LinkTarget(name, member).value != []
    ensures forall i :: 0 <= i < |LinkTarget(name, member).value| ==>
      LinkTarget(name, member).value[i] !in {"", ".", ".."}
  {
    var parts := Split(member.kind.link, '/');
    var whole := if member.kind.Symlink? then ["python"] + name[..|name| - 1] + parts else parts;
    NormaliseIsClean(whole);
    var target := Normalise(whole)[1..];
    forall i | 0 <= i < |target| ensures target[i] !in {"", ".", ".."} {
      assert Normalise(whole)[i + 1] == target[i];
    }
  }

  /** Normalising is a retraction: a path without parts to drop is already what it normalises to. */
  lemma {:induction false} NormaliseKeepsClean(path: Path)
    requires Clean(path)
    ensures Normalise(path) == path
  {
    if path != [] {
      NormaliseKeepsClean(path[..|path| - 1]);
      assert path[..|path| - 1] + [path[|path| - 1]] == path;
    }
  }

  /** A path with nothing to resolve: no empty, `.` or `..` part. */
  predicate Plain(path: Path) {
    forall i :: 0 <= i < |path| ==> path[i] !in {"", ".", ".."}
  }

  /** Which name a plain link resolves to: a symlink beside its own name, a hard link from the root of the archive. */
  lemma PlainLinkTarget(name: Path, member: Member)
    requires name != [] && Plain(name) && IsAlias(member)
    requires Plain(Split(member.kind.link, '/')) && '\\' !in member.kind.link && ':' !in member.kind.link
    ensures
      var parts := Split(member.kind.link, '/');
      && (member.kind.Symlink? ==> LinkTarget(name, member) == Ok(name[..|name| - 1] + parts))
      && (member.kind.Hardlink? && |parts| >= 2 && parts[0] == "python" ==> LinkTarget(name, member) == Ok(parts[1..]))
  {
    var parts := Split(member.kind.link, '/');
    PlainLinkIsRelative(member.kind.link);
    hide Normalise, Split;
    if member.kind.Symlink? {
      var whole := ["python"] + name[..|name| - 1] + parts;
      NormaliseKeepsClean(whole);
      assert whole[1..] == name[..|name| - 1] + parts;
    } else {
      NormaliseKeepsClean(parts);
    }
  }

  lemma {:induction false} PlainLinkIsRelative(link: string)
    requires Plain(Split(link, '/'))
    ensures link != "" && link[0] != '/'
  {
    if link == "" || link[0] == '/' {
      AbsoluteLinkHead(link);
    }
  }

  lemma {:induction false} AbsoluteLinkHead(link: string)
    requires link == "" || link[0] == '/'
    ensures Split(link, '/')[0] == ""
  {
  }
}
