/**
 The remote side of a desktop publication: one GitHub release, its asset rows, and what one API call can do to them.

 Every call consumes one entry of a script that says how it goes: it may be refused, its response may be lost after
 it took effect, and an upload may leave a zero-byte "starter" row or store wrong bytes. A crash of the publisher
 before a call is the same as a refusal of that call.
 */
module GitHubRelease {
  import opened Wrappers

  /** Content stands for its SHA-256: two digests are equal exactly when the contents are. */
  type Content = string

  datatype Asset = Asset(size: nat, digest: Content)

  /** An approved bundle. The manifest digest stands for the assets it lists. */
  datatype Bundle = Bundle(tag: string, source: string, assets: map<string, Asset>) {
    /** Asset sizes are positive, and a bundle lists at most 27 files: 2 manifests, 4 targets of 6 roles, 1 checksum file. */
    predicate Valid() {
      |assets| <= 27 && forall name :: name in assets ==> assets[name].size > 0
    }

    function Marker(): BodyLine {
      ReleaseMarker(source, assets)
    }
  }

  datatype BodyLine =
    | ReleaseMarker(source: string, manifest: map<string, Asset>)
    | EvidenceMarker(evidence: Content)
    | Text(text: string)

  datatype Release = Release(id: nat, tag: string, body: seq<BodyLine>, draft: bool, prerelease: bool)

  datatype RowState = Uploaded | Starter

  datatype Row = Row(id: nat, name: string, state: RowState, size: nat, digest: Option<Content>)

  datatype Remote = Remote(release: Option<Release>, rows: seq<Row>, nextId: nat)

  datatype Outcome = Done | Refused | Lost | LeftStarter | Corrupted(size: nat, digest: Content)

  datatype Error = ApiFailure | Rejected(reason: string)

  predicate HasName(rows: seq<Row>, name: string) {
    exists i :: 0 <= i < |rows| && rows[i].name == name
  }

  function Without(rows: seq<Row>, id: nat): seq<Row> {
    if rows == [] then []
    else if rows[0].id == id then Without(rows[1..], id)
    else [rows[0]] + Without(rows[1..], id)
  }

  // ----- Effects of the calls -----

  function AfterCreate(r: Remote, id: nat, bundle: Bundle, notes: seq<BodyLine>, o: Outcome): Remote {
    if o == Done || o == Lost
    then r.(release := Some(Release(id, bundle.tag, [bundle.Marker()] + notes, true, true))) else r
  }

  function NewRow(r: Remote, name: string, asset: Asset, o: Outcome): Option<Row> {
    match o
    case Refused => None
    case LeftStarter => Some(Row(r.nextId, name, Starter, 0, None))
    case Corrupted(size, digest) => Some(Row(r.nextId, name, Uploaded, size, Some(digest)))
    case _ => Some(Row(r.nextId, name, Uploaded, asset.size, Some(asset.digest)))
  }

  function AfterUpload(r: Remote, name: string, asset: Asset, o: Outcome): Remote {
    if HasName(r.rows, name) then r
    else
      match NewRow(r, name, asset, o)
      case None => r
      case Some(row) => r.(rows := r.rows + [row], nextId := r.nextId + 1)
  }

  function AfterDelete(r: Remote, id: nat, o: Outcome): Remote {
    if o == Done || o == Lost then r.(rows := Without(r.rows, id)) else r
  }

  function AfterUpdate(r: Remote, next: Release, o: Outcome): Remote {
    if o == Done || o == Lost then r.(release := Some(next)) else r
  }

  class GitHub {
    const tag: string
    const commit: string
    /** The ID that GitHub gives to the tag's release when it is created. */
    const releaseId: nat
    var remote: Remote
    var script: seq<Outcome>
    /** Every state the remote side was in, oldest first. */
    ghost var trace: seq<Remote>

    constructor (tag: string, commit: string, releaseId: nat)
      ensures this.tag == tag && this.commit == commit && this.releaseId == releaseId
      ensures remote == Remote(None, [], 1) && script == [] && trace == [remote]
    {
      this.tag, this.commit, this.releaseId := tag, commit, releaseId;
      remote, script := Remote(None, [], 1), [];
      trace := [Remote(None, [], 1)];
    }

    function Next(): Outcome
      reads this
    {
      if script == [] then Done else script[0]
    }

    function Rest(): seq<Outcome>
      reads this
    {
      if script == [] then [] else script[1..]
    }

    method Take() returns (o: Outcome)
      modifies this`script
      ensures o == old(Next()) && script == old(Rest())
    {
      o, script := Next(), Rest();
    }

    method TagCommit() returns (r: Result<string, Error>)
      modifies this`script
      ensures script == old(Rest())
      ensures r == if old(Next()) == Done then Ok(commit) else Err(ApiFailure)
    {
      var o := Take();
      r := if o == Done then Ok(commit) else Err(ApiFailure);
    }

    method FindRelease() returns (r: Result<Option<Release>, Error>)
      modifies this`script
      ensures script == old(Rest())
      ensures r == if old(Next()) == Done then Ok(remote.release) else Err(ApiFailure)
    {
      var o := Take();
      r := if o == Done then Ok(remote.release) else Err(ApiFailure);
    }

    method Assets() returns (r: Result<seq<Row>, Error>)
      modifies this`script
      ensures script == old(Rest())
      ensures r == if old(Next()) != Done then Err(ApiFailure)
                   else if |remote.rows| < 100 then Ok(remote.rows) else Err(Rejected("too many assets"))
    {
      var o := Take();
      r := if o != Done then Err(ApiFailure)
      else if |remote.rows| < 100 then Ok(remote.rows) else Err(Rejected("too many assets"));
    }

    /** The public bytes of one asset, or nothing when no uploaded row has the name. */
    method Download(name: string) returns (r: Result<Asset, Error>)
      modifies this`script
      ensures script == old(Rest())
      ensures r.Ok? ==> exists i :: 0 <= i < |remote.rows| && remote.rows[i].name == name &&
                                    remote.rows[i].digest == Some(r.value.digest) && remote.rows[i].size == r.value.size
      ensures (old(Next()) == Done &&
               exists i :: 0 <= i < |remote.rows| && remote.rows[i].name == name && remote.rows[i].digest.Some?)
              ==> r.Ok?
    {
      var o := Take();
      r := Err(ApiFailure);
      if o == Done {
        for i := 0 to |remote.rows|
          invariant forall k :: 0 <= k < i ==> remote.rows[k].name != name || remote.rows[k].digest.None?
          invariant r == Err(ApiFailure)
        {
          if remote.rows[i].name == name && remote.rows[i].digest.Some? {
            return Ok(Asset(remote.rows[i].size, remote.rows[i].digest.value));
          }
        }
      }
    }

    method CreateDraft(bundle: Bundle, notes: seq<BodyLine>) returns (r: Result<Release, Error>)
      requires remote.release.None?
      modifies this
      ensures script == old(Rest())
      ensures remote == AfterCreate(old(remote), releaseId, bundle, notes, old(Next()))
      ensures trace == old(trace) + [remote]
      ensures r.Ok? <==> old(Next()) == Done
      ensures r.Ok? ==> remote.release == Some(r.value)
    {
      var o := Take();
      remote := AfterCreate(remote, releaseId, bundle, notes, o);
      trace := trace + [remote];
      r := if o == Done then Ok(remote.release.value) else Err(ApiFailure);
    }

    method Upload(name: string, asset: Asset) returns (r: Result<Row, Error>)
      modifies this
      ensures script == old(Rest())
      ensures remote == AfterUpload(old(remote), name, asset, old(Next()))
      ensures trace == old(trace) + [remote]
      ensures r.Ok? <==> !old(HasName(remote.rows, name)) && (old(Next()) == Done || old(Next()).Corrupted?)
      ensures r.Ok? ==> NewRow(old(remote), name, asset, old(Next())) == Some(r.value)
    {
      var o := Take();
      var row := NewRow(remote, name, asset, o);
      r := if !HasName(remote.rows, name) && (o == Done || o.Corrupted?) then Ok(row.value) else Err(ApiFailure);
      remote := AfterUpload(remote, name, asset, o);
      trace := trace + [remote];
    }

    /** DELETE removes whatever row has the ID; that it is only an empty upload is for the caller to ensure. */
    method RemoveEmptyUpload(id: nat) returns (r: Result<(), Error>)
      modifies this
      ensures script == old(Rest())
      ensures remote == AfterDelete(old(remote), id, old(Next()))
      ensures trace == old(trace) + [remote]
      ensures r.Ok? <==> old(Next()) == Done
    {
      var o := Take();
      remote := AfterDelete(remote, id, o);
      trace := trace + [remote];
      r := if o == Done then Ok(()) else Err(ApiFailure);
    }

    method Update(next: Release) returns (r: Result<Release, Error>)
      modifies this
      ensures script == old(Rest())
      ensures remote == AfterUpdate(old(remote), next, old(Next()))
      ensures trace == old(trace) + [remote]
      ensures r == if old(Next()) == Done then Ok(next) else Err(ApiFailure)
    {
      var o := Take();
      remote := AfterUpdate(remote, next, o);
      trace := trace + [remote];
      r := if o == Done then Ok(next) else Err(ApiFailure);
    }
  }
}
