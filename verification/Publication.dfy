/**
 Publishing an approved desktop bundle (scripts/publish_desktop_release.py), run after run, with any of its GitHub
 calls failing.

 Each method states what it keeps in every outcome (the history of the remote side stays Lawful) and what it achieves
 when no call fails.
 */
module Publication {
  import opened Wrappers
  import opened GitHubRelease

  const ID_LIMIT: nat := 100000000000000000000

  // ----- Rows -----

  ghost predicate DistinctRows(rows: seq<Row>) {
    forall i, j :: 0 <= i < j < |rows| ==> rows[i].name != rows[j].name && rows[i].id != rows[j].id
  }

  /** An uploaded row that holds the approved bytes of its name. */
  predicate Matches(row: Row, assets: map<string, Asset>) {
    && row.name in assets && row.state == Uploaded
    && row.size == assets[row.name].size && row.digest == Some(assets[row.name].digest)
  }

  predicate IsEmptyUpload(row: Row) {
    row.state == Starter && row.size == 0 && row.digest.None?
  }

  /** The remote inventory is the bundle, byte for byte and with nothing else. */
  ghost predicate Exact(rows: seq<Row>, assets: map<string, Asset>) {
    && DistinctRows(rows)
    && (forall i :: 0 <= i < |rows| ==> Matches(rows[i], assets))
    && forall name :: name in assets ==> HasName(rows, name)
  }

  /** What runs without corrupted uploads leave behind: approved bytes and empty uploads. */
  ghost predicate Clean(rows: seq<Row>, assets: map<string, Asset>) {
    forall row :: row in rows ==> row.name in assets && (Matches(row, assets) || IsEmptyUpload(row))
  }

  function Names(rows: seq<Row>, state: RowState): set<string> {
    set i | 0 <= i < |rows| && rows[i].state == state :: rows[i].name
  }

  // ----- The law of the remote side -----

  ghost predicate Lawful(r: Remote, tag: string) {
    && DistinctRows(r.rows)
    && 1 <= r.nextId && (forall row :: row in r.rows ==> 1 <= row.id < r.nextId)
    && (r.release.None? ==> r.rows == [])
    && (r.release.Some? ==>
          && r.release.value.tag == tag && r.release.value.id > 0
          && r.release.value.body != [] && r.release.value.body[0].ReleaseMarker?
          && (r.release.value.draft ==> r.release.value.prerelease)
          && (!r.release.value.draft ==> Exact(r.rows, r.release.value.body[0].manifest)))
  }

  /** none, draft, prerelease, release */
  function Stage(r: Remote): nat {
    if r.release.None? then 0 else if r.release.value.draft then 1 else if r.release.value.prerelease then 2 else 3
  }

  /** The later state keeps every uploaded row, the release's identity, and the order of the lifecycle. */
  ghost predicate Keeps(a: Remote, b: Remote) {
    && (forall row :: row in a.rows && row.state == Uploaded ==> row in b.rows)
    && Stage(a) <= Stage(b)
    && (Stage(a) >= 2 ==> b.rows == a.rows)
    && (a.release.Some? && a.release.value.body != [] ==>
          && b.release.Some? && b.release.value.id == a.release.value.id
          && a.release.value.body <= b.release.value.body)
  }

  /** One call: keeps what there is, and moves the lifecycle by at most one stage. */
  ghost predicate Advances(a: Remote, b: Remote) {
    Keeps(a, b) && Stage(b) <= Stage(a) + 1
  }

  ghost predicate History(trace: seq<Remote>, tag: string) {
    && trace != []
    && (forall i :: 0 <= i < |trace| ==> Lawful(trace[i], tag))
    && forall i :: 0 <= i < |trace| - 1 ==> Advances(trace[i], trace[i + 1])
  }

  ghost predicate Valid(gh: GitHub)
    reads gh`remote, gh`trace
  {
    gh.releaseId > 0 && History(gh.trace, gh.tag) && gh.trace[|gh.trace| - 1] == gh.remote
  }

  lemma ValidIsLawful(gh: GitHub)
    requires Valid(gh)
    ensures Lawful(gh.remote, gh.tag)
  {
  }

  lemma LawfulIsDistinct(r: Remote, tag: string)
    requires Lawful(r, tag)
    ensures DistinctRows(r.rows)
  {
  }

  predicate FaultFree(script: seq<Outcome>) {
    forall i :: 0 <= i < |script| ==> script[i] == Done
  }

  predicate Uncorrupted(script: seq<Outcome>) {
    forall i :: 0 <= i < |script| ==> !script[i].Corrupted?
  }

  lemma HistoryGrows(trace: seq<Remote>, next: Remote, tag: string)
    requires History(trace, tag) && Lawful(next, tag) && Advances(trace[|trace| - 1], next)
    ensures History(trace + [next], tag)
  {
  }

  lemma HistoryKeeps(trace: seq<Remote>, tag: string, i: nat, j: nat)
    requires History(trace, tag) && i <= j < |trace|
    ensures Keeps(trace[i], trace[j])
  {
    if i < j {
      assert Advances(trace[j - 1], trace[j]);
      HistoryKeeps(trace, tag, i, j - 1);
      KeepsTransitive(trace[i], trace[j - 1], trace[j]);
    }
  }

  lemma KeepsTransitive(a: Remote, b: Remote, c: Remote)
    requires Keeps(a, b) && Keeps(b, c)
    ensures Keeps(a, c)
  {
  }

  // ----- Rows under deletion and upload -----

  lemma {:induction false} WithoutRows(rows: seq<Row>, id: nat)
    ensures forall row :: row in Without(rows, id) <==> row in rows && row.id != id
    ensures DistinctRows(rows) ==> DistinctRows(Without(rows, id))
  {
    if rows != [] {
      var rest := Without(rows[1..], id);
      WithoutRows(rows[1..], id);
      assert forall row :: row in rows <==> row == rows[0] || row in rows[1..];
      if DistinctRows(rows) {
        assert forall k :: 0 <= k < |rest| ==> rest[k] in rows[1..];
      }
    }
  }

  // ----- The program -----

  method VerifyTag(gh: GitHub, source: string) returns (r: Result<(), Error>)
    modifies gh`script
    ensures gh.script == old(gh.Rest())
    ensures r.Ok? <==> old(gh.Next()) == Done && gh.commit == source
  {
    var commit := gh.TagCommit();
    r := match commit
    case Err(e) => Err(e)
    case Ok(c) => if c == source then Ok(()) else Err(Rejected("tag"));
  }

  /** The ID of a release that carries this bundle's marker. */
  function ReleaseIdFor(release: Release, bundle: Bundle): Result<nat, Error> {
    if !(release.tag == bundle.tag && release.body != [] && release.body[0] == bundle.Marker())
    then Err(Rejected("another manifest"))
    else if release.id == 0 then Err(Rejected("release ID"))
    else Ok(release.id)
  }

  datatype Inventory = Inventory(uploaded: set<string>, empty: map<string, nat>)

  /** A row that the inventory accepts. */
  predicate RowAccepted(row: Row, assets: map<string, Asset>, draft: bool) {
    row.name in assets && if draft && IsEmptyUpload(row) then 0 < row.id < ID_LIMIT else Matches(row, assets)
  }

  ghost predicate InventoryOf(rows: seq<Row>, assets: map<string, Asset>, draft: bool, inv: Inventory) {
    && (forall i, j :: 0 <= i < j < |rows| ==> rows[i].name != rows[j].name)
    && (forall i :: 0 <= i < |rows| ==> RowAccepted(rows[i], assets, draft))
    && (forall i :: 0 <= i < |rows| ==>
          if rows[i].state == Uploaded then rows[i].name in inv.uploaded
          else rows[i].name in inv.empty && inv.empty[rows[i].name] == rows[i].id)
    && (forall name :: name in inv.uploaded ==>
          exists i :: 0 <= i < |rows| && rows[i].name == name && rows[i].state == Uploaded)
    && (forall name :: name in inv.empty ==>
          exists i :: 0 <= i < |rows| && rows[i].name == name && rows[i].id == inv.empty[name] && IsEmptyUpload(rows[i]))
  }

  /** One row of the listing: refused, or added to the inventory. */
  function AddRow(inv: Inventory, row: Row, assets: map<string, Asset>, draft: bool): Result<Inventory, Error> {
    if row.name !in assets || row.name in inv.uploaded || row.name in inv.empty
    then Err(Rejected("unexpected or duplicate asset"))
    else if draft && IsEmptyUpload(row) then
      if 0 < row.id < ID_LIMIT then Ok(inv.(empty := inv.empty[row.name := row.id]))
      else Err(Rejected("empty asset ID"))
    else if Matches(row, assets) then Ok(inv.(uploaded := inv.uploaded + {row.name}))
    else Err(Rejected("conflicting asset"))
  }

  ghost predicate Acceptable(rows: seq<Row>, assets: map<string, Asset>, draft: bool) {
    && (forall i, j :: 0 <= i < j < |rows| ==> rows[i].name != rows[j].name)
    && forall i :: 0 <= i < |rows| ==> RowAccepted(rows[i], assets, draft)
  }

  lemma KnownNames(
      rows: seq<Row>, assets: map<string, Asset>, draft: bool, inv: Inventory, name: string)
    requires InventoryOf(rows, assets, draft, inv)
    ensures HasName(rows, name) <==> name in inv.uploaded || name in inv.empty
  {
  }

  lemma AddedEntries(
      rows: seq<Row>, row: Row, assets: map<string, Asset>, draft: bool, inv: Inventory)
    requires InventoryOf(rows, assets, draft, inv) && AddRow(inv, row, assets, draft).Ok?
    ensures
      var next := AddRow(inv, row, assets, draft).value;
      var all := rows + [row];
      && (forall name :: name in next.uploaded ==>
            exists i :: 0 <= i < |all| && all[i].name == name && all[i].state == Uploaded)
      && (forall name :: name in next.empty ==>
            exists i :: 0 <= i < |all| && all[i].name == name && all[i].id == next.empty[name] && IsEmptyUpload(all[i]))
  {
    var next := AddRow(inv, row, assets, draft).value;
    var all := rows + [row];
    assert all[|rows|] == row && forall i :: 0 <= i < |rows| ==> all[i] == rows[i];
    forall name | name in next.uploaded && name != row.name
      ensures exists i :: 0 <= i < |all| && all[i].name == name && all[i].state == Uploaded
    {
      var i :| 0 <= i < |rows| && rows[i].name == name && rows[i].state == Uploaded;
      assert all[i].name == name;
    }
    forall name | name in next.empty && name != row.name
      ensures exists i :: 0 <= i < |all| && all[i].name == name && all[i].id == next.empty[name] && IsEmptyUpload(all[i])
    {
      var i :| 0 <= i < |rows| && rows[i].name == name && rows[i].id == inv.empty[name] && IsEmptyUpload(rows[i]);
      assert all[i].name == name;
    }
  }

  lemma AddRowExact(
      rows: seq<Row>, row: Row, assets: map<string, Asset>, draft: bool, inv: Inventory)
    requires InventoryOf(rows, assets, draft, inv)
    ensures AddRow(inv, row, assets, draft).Ok? <==> RowAccepted(row, assets, draft) && !HasName(rows, row.name)
    ensures AddRow(inv, row, assets, draft).Ok? ==>
      InventoryOf(rows + [row], assets, draft, AddRow(inv, row, assets, draft).value)
  {
    KnownNames(rows, assets, draft, inv, row.name);
    if AddRow(inv, row, assets, draft).Ok? {
      AddedEntries(rows, row, assets, draft, inv);
    }
  }

  method RemoteInventory(gh: GitHub, bundle: Bundle, draft: bool) returns (r: Result<Inventory, Error>)
    modifies gh`script
    ensures gh.script == old(gh.Rest())
    ensures r.Ok? ==> InventoryOf(gh.remote.rows, bundle.assets, draft, r.value)
    ensures r.Ok? <==>
      old(gh.Next()) == Done && |gh.remote.rows| < 100 && Acceptable(gh.remote.rows, bundle.assets, draft)
  {
    var listed := gh.Assets();
    if listed.Err? {
      return Err(listed.error);
    }
    hide RowAccepted, AddRow;
    var rows := listed.value;
    var inv := Inventory({}, map[]);
    for k := 0 to |rows|
      invariant InventoryOf(rows[..k], bundle.assets, draft, inv)
      invariant gh.script == old(gh.Rest())
    {
      assert rows[..k + 1] == rows[..k] + [rows[k]];
      AddRowExact(rows[..k], rows[k], bundle.assets, draft, inv);
      var added := AddRow(inv, rows[k], bundle.assets, draft);
      if added.Err? {
        if HasName(rows[..k], rows[k].name) {
          var i :| 0 <= i < k && rows[..k][i].name == rows[k].name;
          assert rows[i].name == rows[k].name;
        }
        return Err(added.error);
      }
      inv := added.value;
    }
    assert rows[..|rows|] == rows;
    return Ok(inv);
  }

  // ----- Staging a draft -----

  ghost predicate IsDraft(r: Remote) {
    r.release.Some? && r.release.value.draft
  }

  lemma UploadIsLawful(r: Remote, name: string, asset: Asset, o: Outcome, tag: string)
    requires Lawful(r, tag) && IsDraft(r)
    ensures Lawful(AfterUpload(r, name, asset, o), tag) && Advances(r, AfterUpload(r, name, asset, o))
  {
  }

  lemma DeleteIsLawful(r: Remote, id: nat, o: Outcome, tag: string)
    requires Lawful(r, tag) && IsDraft(r)
    requires forall row :: row in r.rows && row.id == id ==> row.state == Starter
    ensures Lawful(AfterDelete(r, id, o), tag) && Advances(r, AfterDelete(r, id, o))
  {
    WithoutRows(r.rows, id);
  }

  /** The listed IDs are, if they still exist, the empty uploads of their names. */
  ghost predicate OnlyStarters(r: Remote, empty: map<string, nat>) {
    forall name :: name in empty ==>
      && empty[name] < r.nextId
      && forall row :: row in r.rows && row.id == empty[name] ==> row.state == Starter && row.name == name
  }

  ghost predicate HasUploaded(rows: seq<Row>, name: string) {
    exists row :: row in rows && row.name == name && row.state == Uploaded
  }

  /** What remains to upload, when nothing is corrupted: pending names, of which some have a listed empty upload. */
  ghost predicate Pending(rows: seq<Row>, assets: map<string, Asset>, pending: set<string>, empty: map<string, nat>) {
    && Clean(rows, assets)
    && pending <= assets.Keys
    && (forall name :: name in assets ==> (name in pending <==> !HasUploaded(rows, name)))
    && forall row :: row in rows && row.state == Starter ==>
         row.name in pending && row.name in empty && empty[row.name] == row.id
  }

  function ClearedRows(rows: seq<Row>, name: string, empty: map<string, nat>): seq<Row> {
    if name in empty then Without(rows, empty[name]) else rows
  }

  lemma ClearedRowsAre(r: Remote, name: string, empty: map<string, nat>)
    requires OnlyStarters(r, empty)
    ensures forall row :: row in ClearedRows(r.rows, name, empty) <==>
      row in r.rows && (name in empty ==> row.id != empty[name])
    ensures forall row :: row in r.rows && row.name != name ==> row in ClearedRows(r.rows, name, empty)
  {
    if name in empty {
      WithoutRows(r.rows, empty[name]);
    }
  }

  lemma ClearedHasNoName(
      r: Remote, name: string, assets: map<string, Asset>, pending: set<string>, empty: map<string, nat>)
    requires OnlyStarters(r, empty) && Pending(r.rows, assets, pending, empty) && name in pending
    ensures !HasName(ClearedRows(r.rows, name, empty), name)
  {
    var cleared := ClearedRows(r.rows, name, empty);
    ClearedRowsAre(r, name, empty);
    assert !HasUploaded(r.rows, name);
    forall i | 0 <= i < |cleared| ensures cleared[i].name != name {
      assert cleared[i] in r.rows;
    }
  }

  function ApprovedRow(id: nat, name: string, asset: Asset): Row {
    Row(id, name, Uploaded, asset.size, Some(asset.digest))
  }

  /** Replacing a pending name's empty upload, if any, by its approved bytes leaves one name less to upload. */
  lemma StagingProgresses(
      r: Remote, name: string, assets: map<string, Asset>, pending: set<string>, empty: map<string, nat>)
    requires OnlyStarters(r, empty) && Pending(r.rows, assets, pending, empty) && name in pending
    ensures Pending(
      ClearedRows(r.rows, name, empty) + [ApprovedRow(r.nextId, name, assets[name])],
      assets, pending - {name}, empty)
  {
    var cleared := ClearedRows(r.rows, name, empty);
    var row := ApprovedRow(r.nextId, name, assets[name]);
    var next := cleared + [row];
    ClearedRowsAre(r, name, empty);
    ClearedHasNoName(r, name, assets, pending, empty);
    assert row in next;
    forall other | other in assets ensures other in pending - {name} <==> !HasUploaded(next, other) {
      if other != name {
        UploadedElsewhere(r, name, row, empty, other);
      }
    }
    forall x | x in next && x.state == Starter ensures x.name in pending - {name} {
      assert x in cleared;
      var i :| 0 <= i < |cleared| && cleared[i] == x;
    }
  }

  lemma UploadedElsewhere(r: Remote, name: string, row: Row, empty: map<string, nat>, other: string)
    requires OnlyStarters(r, empty) && row.name == name != other
    ensures HasUploaded(r.rows, other) <==> HasUploaded(ClearedRows(r.rows, name, empty) + [row], other)
  {
    ClearedRowsAre(r, name, empty);
    var next := ClearedRows(r.rows, name, empty) + [row];
    if HasUploaded(r.rows, other) {
      var x :| x in r.rows && x.name == other && x.state == Uploaded;
      assert x in next;
    }
  }

  lemma StartersStay(
      r: Remote, empty: map<string, nat>, name: string, asset: Asset, id: nat, o: Outcome)
    requires OnlyStarters(r, empty)
    ensures OnlyStarters(AfterUpload(r, name, asset, o), empty)
    ensures OnlyStarters(AfterDelete(r, id, o), empty)
  {
    WithoutRows(r.rows, id);
  }

  /** The run meets no failing call and the tag is the approved source. */
  ghost predicate Smooth(gh: GitHub, bundle: Bundle)
    reads gh
  {
    FaultFree(gh.script) && gh.commit == bundle.source
  }

  /** No upload was or will be corrupted, and the rows are approved bytes or empty uploads. */
  ghost predicate Unspoilt(gh: GitHub, assets: map<string, Asset>)
    reads gh
  {
    Uncorrupted(gh.script) && Clean(gh.remote.rows, assets)
  }

  method ClearEmptyUpload(gh: GitHub, name: string, empty: map<string, nat>) returns (r: Result<(), Error>)
    requires Valid(gh) && IsDraft(gh.remote) && OnlyStarters(gh.remote, empty)
    modifies gh
    ensures Valid(gh) && old(gh.trace) <= gh.trace
    ensures gh.remote.release == old(gh.remote.release) && OnlyStarters(gh.remote, empty)
    ensures gh.remote.nextId == old(gh.remote.nextId)
    ensures r.Ok? ==> gh.remote.rows == old(ClearedRows(gh.remote.rows, name, empty))
    ensures old(FaultFree(gh.script)) ==> r.Ok? && FaultFree(gh.script)
    ensures forall assets :: old(Unspoilt(gh, assets)) ==> Unspoilt(gh, assets)
  {
    r := Ok(());
    if name in empty {
      WithoutRows(gh.remote.rows, empty[name]);
      // A failed upload can leave a zero-byte starter; an uploaded row is never deleted.
      ghost var o := gh.Next();
      DeleteIsLawful(gh.remote, empty[name], o, gh.tag);
      StartersStay(gh.remote, empty, name, Asset(0, ""), empty[name], o);
      HistoryGrows(gh.trace, AfterDelete(gh.remote, empty[name], o), gh.tag);
      r := gh.RemoveEmptyUpload(empty[name]);
    }
  }

  method UploadApproved(gh: GitHub, name: string, assets: map<string, Asset>, ghost empty: map<string, nat>)
    returns (r: Result<(), Error>)
    requires Valid(gh) && IsDraft(gh.remote) && OnlyStarters(gh.remote, empty)
    requires name in assets
    modifies gh
    ensures Valid(gh) && old(gh.trace) <= gh.trace
    ensures gh.remote.release == old(gh.remote.release) && OnlyStarters(gh.remote, empty)
    ensures old(FaultFree(gh.script) && !HasName(gh.remote.rows, name)) ==>
      && r.Ok? && FaultFree(gh.script)
      && gh.remote.rows == old(gh.remote.rows) + [ApprovedRow(old(gh.remote.nextId), name, assets[name])]
      && gh.remote.nextId == old(gh.remote.nextId) + 1
    ensures old(Unspoilt(gh, assets)) ==> Unspoilt(gh, assets)
  {
    ghost var o := gh.Next();
    UploadIsLawful(gh.remote, name, assets[name], o, gh.tag);
    StartersStay(gh.remote, empty, name, assets[name], 0, o);
    HistoryGrows(gh.trace, AfterUpload(gh.remote, name, assets[name], o), gh.tag);
    var uploaded := gh.Upload(name, assets[name]);
    if uploaded.Err? {
      return Err(uploaded.error);
    }
    if uploaded.value.name != name || !Matches(uploaded.value, assets) {
      return Err(Rejected("conflicting asset"));
    }
    return Ok(());
  }

  /** The body of the staging loop for one missing name. */
  method StageOne(
      gh: GitHub, bundle: Bundle, name: string, empty: map<string, nat>, ghost pending: set<string>)
    returns (r: Result<(), Error>)
    requires Valid(gh) && IsDraft(gh.remote) && OnlyStarters(gh.remote, empty)
    requires name in bundle.assets
    modifies gh
    ensures Valid(gh) && old(gh.trace) <= gh.trace
    ensures gh.remote.release == old(gh.remote.release) && OnlyStarters(gh.remote, empty)
    ensures
      old(Smooth(gh, bundle)) && name in pending && old(Pending(gh.remote.rows, bundle.assets, pending, empty)) ==>
        && r.Ok? && Smooth(gh, bundle)
        && Pending(gh.remote.rows, bundle.assets, pending - {name}, empty)
        && gh.remote.nextId == old(gh.remote.nextId) + 1
    ensures old(Unspoilt(gh, bundle.assets)) ==> Unspoilt(gh, bundle.assets)
  {
    hide Lawful, Advances, Keeps, Clean, HasUploaded, Matches;
    ghost var before := gh.remote;
    var verified := VerifyTag(gh, bundle.source);
    if verified.Err? {
      return Err(verified.error);
    }
    var cleared := ClearEmptyUpload(gh, name, empty);
    if cleared.Err? {
      return Err(cleared.error);
    }
    if name in pending && Pending(before.rows, bundle.assets, pending, empty) {
      StagingProgresses(before, name, bundle.assets, pending, empty);
      ClearedHasNoName(before, name, bundle.assets, pending, empty);
    }
    r := UploadApproved(gh, name, bundle.assets, empty);
  }

  lemma ListedEmptyUpload(
      rows: seq<Row>, assets: map<string, Asset>, inv: Inventory, name: string) returns (i: nat)
    requires InventoryOf(rows, assets, true, inv) && name in inv.empty
    ensures i < |rows| && rows[i].name == name && rows[i].id == inv.empty[name] && IsEmptyUpload(rows[i])
  {
    i :| 0 <= i < |rows| && rows[i].name == name && rows[i].id == inv.empty[name] && IsEmptyUpload(rows[i]);
  }

  lemma ListedAreStarters(r: Remote, tag: string, assets: map<string, Asset>, inv: Inventory)
    requires Lawful(r, tag) && InventoryOf(r.rows, assets, true, inv)
    ensures OnlyStarters(r, inv.empty)
  {
    hide InventoryOf;
    forall name | name in inv.empty
      ensures inv.empty[name] < r.nextId
      ensures forall row :: row in r.rows && row.id == inv.empty[name] ==> row.state == Starter && row.name == name
    {
      var i := ListedEmptyUpload(r.rows, assets, inv, name);
      assert r.rows[i] in r.rows;
      forall row | row in r.rows && row.id == inv.empty[name] ensures row == r.rows[i] {
        var k :| 0 <= k < |r.rows| && r.rows[k] == row;
      }
    }
  }

  lemma ListedRow(rows: seq<Row>, assets: map<string, Asset>, inv: Inventory, row: Row)
    requires InventoryOf(rows, assets, true, inv) && row in rows
    ensures row.name in assets && (Matches(row, assets) || IsEmptyUpload(row))
    ensures row.state == Uploaded ==> row.name in inv.uploaded
    ensures row.state == Starter ==>
      row.name !in inv.uploaded && row.name in inv.empty && inv.empty[row.name] == row.id
  {
    var k :| 0 <= k < |rows| && rows[k] == row;
    assert RowAccepted(rows[k], assets, true);
  }

  lemma ListedIsPending(rows: seq<Row>, assets: map<string, Asset>, inv: Inventory)
    requires InventoryOf(rows, assets, true, inv)
    ensures Pending(rows, assets, assets.Keys - inv.uploaded, inv.empty)
    ensures assets.Keys - inv.uploaded == Missing(rows, assets)
  {
    forall name | name in inv.uploaded ensures HasUploaded(rows, name) {
      var i :| 0 <= i < |rows| && rows[i].name == name && rows[i].state == Uploaded;
      assert rows[i] in rows;
    }
    forall row | row in rows
      ensures row.name in assets && (Matches(row, assets) || IsEmptyUpload(row))
      ensures row.state == Uploaded ==> row.name in inv.uploaded
      ensures row.state == Starter ==>
        row.name !in inv.uploaded && row.name in inv.empty && inv.empty[row.name] == row.id
    {
      ListedRow(rows, assets, inv, row);
    }
  }

  lemma CompleteListing(rows: seq<Row>, assets: map<string, Asset>, draft: bool, inv: Inventory)
    requires DistinctRows(rows) && InventoryOf(rows, assets, draft, inv)
    requires inv.uploaded == assets.Keys && (draft ==> inv.empty == map[])
    ensures Exact(rows, assets)
  {
    forall i | 0 <= i < |rows| ensures Matches(rows[i], assets) {
      assert RowAccepted(rows[i], assets, draft);
    }
  }

  lemma NamesFit(rows: seq<Row>, names: set<string>)
    requires DistinctRows(rows) && forall row :: row in rows ==> row.name in names
    ensures |rows| <= |names|
  {
    if rows != [] {
      var rest := rows[1..];
      forall row | row in rest ensures row.name in names - {rows[0].name} {
        var k :| 0 <= k < |rest| && rest[k] == row;
        assert rows[k + 1] == row;
      }
      NamesFit(rest, names - {rows[0].name});
    }
  }

  /** Clean rows are listed without objection. */
  lemma CleanIsAcceptable(r: Remote, tag: string, bundle: Bundle)
    requires Lawful(r, tag) && Clean(r.rows, bundle.assets) && bundle.Valid() && r.nextId <= ID_LIMIT
    ensures |r.rows| < 100 && Acceptable(r.rows, bundle.assets, true)
  {
    NamesFit(r.rows, bundle.assets.Keys);
    forall i | 0 <= i < |r.rows| ensures RowAccepted(r.rows[i], bundle.assets, true) {
      assert r.rows[i] in r.rows;
    }
  }

  lemma ExactIsAcceptable(rows: seq<Row>, bundle: Bundle, draft: bool)
    requires Exact(rows, bundle.assets) && bundle.Valid()
    ensures |rows| < 100 && Acceptable(rows, bundle.assets, draft)
    ensures Clean(rows, bundle.assets)
  {
    NamesFit(rows, bundle.assets.Keys);
    assert forall i :: 0 <= i < |rows| ==> Matches(rows[i], bundle.assets);
  }

  /** An inventory of the exact rows is complete. */
  lemma ExactIsComplete(rows: seq<Row>, assets: map<string, Asset>, draft: bool, inv: Inventory)
    requires Exact(rows, assets) && InventoryOf(rows, assets, draft, inv)
    ensures inv.uploaded == assets.Keys && inv.empty == map[]
  {
    forall name | name in assets ensures name in inv.uploaded {
      var i :| 0 <= i < |rows| && rows[i].name == name;
      assert Matches(rows[i], assets);
    }
    assert forall i :: 0 <= i < |rows| ==> Matches(rows[i], assets) && !IsEmptyUpload(rows[i]);
    assert inv.empty.Keys == {};
  }

  /** Nothing pending: the rows are the bundle. */
  lemma NothingPending(rows: seq<Row>, assets: map<string, Asset>, empty: map<string, nat>)
    requires DistinctRows(rows) && Pending(rows, assets, {}, empty)
    ensures Exact(rows, assets)
  {
    forall name | name in assets ensures HasName(rows, name) {
      assert HasUploaded(rows, name);
      var row :| row in rows && row.name == name && row.state == Uploaded;
      var i :| 0 <= i < |rows| && rows[i] == row;
    }
    forall i | 0 <= i < |rows| ensures Matches(rows[i], assets) {
      assert rows[i] in rows;
    }
  }

  /** The names that still need an upload. */
  ghost function Missing(rows: seq<Row>, assets: map<string, Asset>): set<string> {
    set name | name in assets && !HasUploaded(rows, name)
  }

  /** The staging loop. The source visits the missing names in order; nothing below depends on the order. */
  method StageMissing(gh: GitHub, bundle: Bundle, missing: set<string>, empty: map<string, nat>)
    returns (r: Result<(), Error>)
    requires Valid(gh) && IsDraft(gh.remote) && OnlyStarters(gh.remote, empty)
    requires missing <= bundle.assets.Keys
    modifies gh
    ensures Valid(gh) && old(gh.trace) <= gh.trace
    ensures gh.remote.release == old(gh.remote.release)
    ensures old(Unspoilt(gh, bundle.assets)) ==> Unspoilt(gh, bundle.assets)
    ensures
      old(Smooth(gh, bundle) && Pending(gh.remote.rows, bundle.assets, missing, empty)) ==>
        && r.Ok? && Smooth(gh, bundle)
        && Pending(gh.remote.rows, bundle.assets, {}, empty)
        && gh.remote.nextId == old(gh.remote.nextId) + |missing|
  {
    hide Valid, Clean, HasUploaded, OnlyStarters;
    var pending := missing;
    ghost var smooth := Smooth(gh, bundle) && Pending(gh.remote.rows, bundle.assets, missing, empty);
    while pending != {}
      invariant Valid(gh) && IsDraft(gh.remote) && OnlyStarters(gh.remote, empty) && old(gh.trace) <= gh.trace
      invariant gh.remote.release == old(gh.remote.release) && pending <= bundle.assets.Keys
      invariant old(Unspoilt(gh, bundle.assets)) ==> Unspoilt(gh, bundle.assets)
      invariant smooth ==> Smooth(gh, bundle) && Pending(gh.remote.rows, bundle.assets, pending, empty)
      invariant smooth ==> gh.remote.nextId + |pending| == old(gh.remote.nextId) + |missing|
    {
      var name :| name in pending;
      var staged := StageOne(gh, bundle, name, empty, pending);
      if staged.Err? {
        return Err(staged.error);
      }
      pending := pending - {name};
    }
    return Ok(());
  }

  /** The second listing: the draft must hold the whole bundle. */
  method ConfirmComplete(gh: GitHub, bundle: Bundle) returns (r: Result<(), Error>)
    requires DistinctRows(gh.remote.rows) && bundle.Valid()
    modifies gh`script
    ensures r.Ok? ==> Exact(gh.remote.rows, bundle.assets)
    ensures old(FaultFree(gh.script)) && Exact(gh.remote.rows, bundle.assets) ==> r.Ok? && FaultFree(gh.script)
    ensures old(Uncorrupted(gh.script)) ==> Uncorrupted(gh.script)
  {
    if Exact(gh.remote.rows, bundle.assets) {
      ExactIsAcceptable(gh.remote.rows, bundle, true);
    }
    var listed := RemoteInventory(gh, bundle, true);
    if listed.Err? {
      return Err(listed.error);
    }
    if Exact(gh.remote.rows, bundle.assets) {
      ExactIsComplete(gh.remote.rows, bundle.assets, true, listed.value);
    }
    if listed.value.uploaded != bundle.assets.Keys || listed.value.empty != map[] {
      return Err(Rejected("incomplete draft"));
    }
    CompleteListing(gh.remote.rows, bundle.assets, true, listed.value);
    return Ok(());
  }

  method StageDraft(gh: GitHub, bundle: Bundle) returns (r: Result<(), Error>)
    requires Valid(gh) && IsDraft(gh.remote) && bundle.Valid()
    modifies gh
    ensures Valid(gh) && old(gh.trace) <= gh.trace
    ensures gh.remote.release == old(gh.remote.release)
    ensures r.Ok? ==> Exact(gh.remote.rows, bundle.assets) && old(Clean(gh.remote.rows, bundle.assets))
    ensures old(Unspoilt(gh, bundle.assets)) ==> Unspoilt(gh, bundle.assets)
    ensures
      old(Smooth(gh, bundle) && Clean(gh.remote.rows, bundle.assets) && gh.remote.nextId <= ID_LIMIT) ==>
        && r.Ok? && Smooth(gh, bundle)
        && gh.remote.nextId == old(gh.remote.nextId + |Missing(gh.remote.rows, bundle.assets)|)
  {
    hide Valid, Lawful, HasUploaded, Clean, InventoryOf, Acceptable;
    ValidIsLawful(gh);
    if Clean(gh.remote.rows, bundle.assets) && gh.remote.nextId <= ID_LIMIT {
      CleanIsAcceptable(gh.remote, gh.tag, bundle);
    }
    var listed := RemoteInventory(gh, bundle, true);
    if listed.Err? {
      return Err(listed.error);
    }
    var empty := listed.value.empty;
    ListedAreStarters(gh.remote, gh.tag, bundle.assets, listed.value);
    ListedIsPending(gh.remote.rows, bundle.assets, listed.value);
    r := StageMissing(gh, bundle, bundle.assets.Keys - listed.value.uploaded, empty);
    if r.Err? {
      return;
    }
    ValidIsLawful(gh);
    LawfulIsDistinct(gh.remote, gh.tag);
    if Pending(gh.remote.rows, bundle.assets, {}, empty) {
      NothingPending(gh.remote.rows, bundle.assets, empty);
    }
    r := ConfirmComplete(gh, bundle);
  }

  // ----- Public verification -----

  lemma PublicListing(rows: seq<Row>, assets: map<string, Asset>, inv: Inventory)
    requires DistinctRows(rows) && InventoryOf(rows, assets, false, inv) && inv.uploaded == assets.Keys
    ensures Exact(rows, assets)
  {
    CompleteListing(rows, assets, false, inv);
  }

  /** The listing of a public release: every approved asset and nothing else. */
  method ListPublic(gh: GitHub, bundle: Bundle) returns (r: Result<(), Error>)
    requires DistinctRows(gh.remote.rows) && bundle.Valid()
    modifies gh`script
    ensures r.Ok? ==> Exact(gh.remote.rows, bundle.assets)
    ensures old(FaultFree(gh.script)) && Exact(gh.remote.rows, bundle.assets) ==> r.Ok? && FaultFree(gh.script)
  {
    if Exact(gh.remote.rows, bundle.assets) {
      ExactIsAcceptable(gh.remote.rows, bundle, false);
    }
    var listed := RemoteInventory(gh, bundle, false);
    if listed.Err? {
      return Err(listed.error);
    }
    if Exact(gh.remote.rows, bundle.assets) {
      ExactIsComplete(gh.remote.rows, bundle.assets, false, listed.value);
    }
    if listed.value.uploaded != bundle.assets.Keys {
      return Err(Rejected("missing approved assets"));
    }
    PublicListing(gh.remote.rows, bundle.assets, listed.value);
    return Ok(());
  }

  /** Downloading the name gives these bytes. */
  predicate Serves(rows: seq<Row>, name: string, asset: Asset) {
    exists i :: 0 <= i < |rows| && rows[i].name == name && rows[i].digest == Some(asset.digest) && rows[i].size == asset.size
  }

  /** Download every asset and compare its bytes. */
  method VerifyDownloads(gh: GitHub, bundle: Bundle) returns (r: Result<(), Error>)
    modifies gh`script
    ensures r.Ok? ==> forall name :: name in bundle.assets ==> Serves(gh.remote.rows, name, bundle.assets[name])
    ensures old(FaultFree(gh.script)) && Exact(gh.remote.rows, bundle.assets) ==> r.Ok? && FaultFree(gh.script)
  {
    ghost var smooth := FaultFree(gh.script) && Exact(gh.remote.rows, bundle.assets);
    var pending := bundle.assets.Keys;
    while pending != {}
      invariant pending <= bundle.assets.Keys
      invariant smooth ==> FaultFree(gh.script)
      invariant forall name :: name in bundle.assets.Keys - pending ==>
        Serves(gh.remote.rows, name, bundle.assets[name])
    {
      var name :| name in pending;
      if smooth {
        assert HasName(gh.remote.rows, name);
      }
      var bytes := gh.Download(name);
      if bytes.Err? {
        return Err(bytes.error);
      }
      if bytes.value != bundle.assets[name] {
        return Err(Rejected("byte verification"));
      }
      pending := pending - {name};
    }
    return Ok(());
  }

  method VerifyPublic(gh: GitHub, bundle: Bundle) returns (r: Result<(), Error>)
    requires DistinctRows(gh.remote.rows) && bundle.Valid()
    modifies gh`script
    ensures r.Ok? ==> Exact(gh.remote.rows, bundle.assets) && gh.commit == bundle.source
    ensures old(Smooth(gh, bundle)) && Exact(gh.remote.rows, bundle.assets) ==> r.Ok? && Smooth(gh, bundle)
  {
    hide Exact, DistinctRows;
    r := VerifyTag(gh, bundle.source);
    if r.Err? { return; }
    r := ListPublic(gh, bundle);
    if r.Err? { return; }
    r := VerifyDownloads(gh, bundle);
    if r.Err? { return; }
    r := VerifyTag(gh, bundle.source);
    if r.Err? { return; }
    r := ListPublic(gh, bundle);
  }

  // ----- Publishing -----

  /** Downloaded provisioning evidence: what it was recorded for, and whether every target passed. */
  datatype Evidence = Evidence(digest: Content, releaseId: nat, manifest: map<string, Asset>, passed: bool,
                               reports: seq<string>)

  datatype Dispatch = Prerelease | Promote(evidence: Evidence)

  function Links(reports: seq<string>): seq<BodyLine> {
    if reports == [] then [] else [Text(reports[0])] + Links(reports[1..])
  }

  function PromotedBody(body: seq<BodyLine>, evidence: Evidence): seq<BodyLine> {
    body + [Text(""), EvidenceMarker(evidence.digest), Text("")] + Links(evidence.reports)
  }

  predicate EvidenceAccepted(evidence: Evidence, releaseId: nat, bundle: Bundle) {
    evidence.releaseId == releaseId && evidence.manifest == bundle.assets && evidence.passed
  }

  /** The remote release belongs to this bundle. */
  predicate Owned(r: Remote, bundle: Bundle) {
    r.release.Some? && r.release.value.body != [] && r.release.value.body[0] == bundle.Marker()
  }

  /** What a crash-free prerelease run can complete: nothing yet, a clean draft of this bundle, or its public release. */
  ghost predicate Resumable(r: Remote, bundle: Bundle) {
    r.nextId <= ID_LIMIT &&
    (r.release.None? || (Owned(r, bundle) && (IsDraft(r) ==> Clean(r.rows, bundle.assets))))
  }

  /** No release yet, or one of this bundle; the row IDs still fit the expected form. */
  predicate Completable(r: Remote, bundle: Bundle) {
    r.nextId <= ID_LIMIT && (r.release.None? || Owned(r, bundle))
  }

  /** The rows of the release are approved bytes of its own manifest, or empty uploads. */
  ghost predicate CleanRemote(r: Remote) {
    r.release.Some? && r.release.value.body != [] && r.release.value.body[0].ReleaseMarker? ==>
      Clean(r.rows, r.release.value.body[0].manifest)
  }

  lemma CreateIsLawful(r: Remote, id: nat, bundle: Bundle, notes: seq<BodyLine>, o: Outcome)
    requires Lawful(r, bundle.tag) && r.release.None? && id > 0
    ensures
      var next := AfterCreate(r, id, bundle, notes, o);
      && Lawful(next, bundle.tag) && Advances(r, next)
      && CleanRemote(next) && next.rows == [] && next.nextId == r.nextId
  {
  }

  lemma UpdateIsLawful(r: Remote, next: Release, o: Outcome, tag: string)
    requires Lawful(r, tag) && r.release.Some?
    requires next.tag == tag && next.id == r.release.value.id && !next.draft && r.release.value.body <= next.body
    requires IsDraft(r) ==> next.prerelease && Exact(r.rows, r.release.value.body[0].manifest)
    ensures Lawful(AfterUpdate(r, next, o), tag)
    ensures (r.release.value.prerelease || !next.prerelease) ==> Advances(r, AfterUpdate(r, next, o))
  {
    assert next.body[0] == r.release.value.body[0];
  }

  /** The tag's release, created as a draft when there is none yet. */
  method FindOrCreate(gh: GitHub, dispatch: Dispatch, bundle: Bundle, notes: seq<BodyLine>)
    returns (r: Result<Release, Error>)
    requires Valid(gh) && bundle.tag == gh.tag
    modifies gh
    ensures Valid(gh) && old(gh.trace) <= gh.trace
    ensures r.Ok? ==> gh.remote.release == Some(r.value)
    ensures dispatch.Promote? || old(gh.remote.release.Some?) ==> gh.remote == old(gh.remote)
    ensures gh.remote.rows == old(gh.remote.rows) && gh.remote.nextId == old(gh.remote.nextId)
    ensures old(gh.remote.release.None?) ==> gh.remote.release.None? || (Owned(gh.remote, bundle) && IsDraft(gh.remote))
    ensures old(CleanRemote(gh.remote)) ==> CleanRemote(gh.remote)
    ensures old(Uncorrupted(gh.script)) ==> Uncorrupted(gh.script)
    ensures old(Smooth(gh, bundle)) && (dispatch.Prerelease? || old(gh.remote.release.Some?)) ==>
      r.Ok? && Smooth(gh, bundle)
  {
    var verified := VerifyTag(gh, bundle.source);
    if verified.Err? {
      return Err(verified.error);
    }
    var found := gh.FindRelease();
    if found.Err? {
      return Err(found.error);
    }
    if found.value.Some? {
      return Ok(found.value.value);
    }
    if dispatch.Promote? {
      return Err(Rejected("publish a prerelease first"));
    }
    ghost var o := gh.Next();
    CreateIsLawful(gh.remote, gh.releaseId, bundle, notes, o);
    HistoryGrows(gh.trace, AfterCreate(gh.remote, gh.releaseId, bundle, notes, o), gh.tag);
    r := gh.CreateDraft(bundle, notes);
  }

  /** Turn a fully staged draft into the public prerelease. */
  method GoPublic(gh: GitHub, bundle: Bundle, release: Release) returns (r: Result<(), Error>)
    requires Valid(gh) && gh.remote.release == Some(release) && release.draft && Owned(gh.remote, bundle)
    requires bundle.tag == gh.tag && Exact(gh.remote.rows, bundle.assets)
    modifies gh
    ensures Valid(gh) && old(gh.trace) <= gh.trace
    ensures gh.remote.rows == old(gh.remote.rows) && gh.remote.nextId == old(gh.remote.nextId)
    ensures Owned(gh.remote, bundle) && gh.remote.release.value.id == release.id
    ensures r.Ok? ==> gh.remote.release == Some(release.(draft := false, prerelease := true))
    ensures old(Smooth(gh, bundle)) ==> r.Ok? && Smooth(gh, bundle)
  {
    ValidIsLawful(gh);
    r := VerifyTag(gh, bundle.source);
    if r.Err? {
      return;
    }
    var next := release.(draft := false, prerelease := true);
    ghost var o := gh.Next();
    UpdateIsLawful(gh.remote, next, o, gh.tag);
    HistoryGrows(gh.trace, AfterUpdate(gh.remote, next, o), gh.tag);
    var updated := gh.Update(next);
    if updated.Err? {
      return Err(updated.error);
    }
    if ReleaseIdFor(updated.value, bundle) != Ok(release.id) || updated.value.draft || !updated.value.prerelease {
      return Err(Rejected("not published"));
    }
    return Ok(());
  }

  method PublishPrerelease(gh: GitHub, bundle: Bundle, release: Release) returns (r: Result<(), Error>)
    requires Valid(gh) && bundle.Valid() && bundle.tag == gh.tag
    requires gh.remote.release == Some(release) && Owned(gh.remote, bundle)
    modifies gh
    ensures Valid(gh) && old(gh.trace) <= gh.trace
    ensures Owned(gh.remote, bundle) && gh.remote.release.value.id == release.id
    ensures r.Ok? ==> !IsDraft(gh.remote) && Exact(gh.remote.rows, bundle.assets)
    ensures r.Ok? ==> old(Clean(gh.remote.rows, bundle.assets))
    ensures !release.draft ==> gh.remote == old(gh.remote)
    ensures old(Unspoilt(gh, bundle.assets)) ==> Clean(gh.remote.rows, bundle.assets)
    ensures old(Smooth(gh, bundle) && Resumable(gh.remote, bundle)) ==>
      && r.Ok?
      && gh.remote.nextId == old(gh.remote.nextId + |Missing(gh.remote.rows, bundle.assets)|)
  {
    hide Lawful, Clean, Exact, DistinctRows, Keeps;
    ValidIsLawful(gh);
    PublicIsExact(gh.remote, gh.tag, bundle);
    if !release.draft {
      ExactIsAcceptable(gh.remote.rows, bundle, false);
    }
    if release.draft {
      if !release.prerelease {
        return Err(Rejected("draft without the prerelease flag"));
      }
      r := StageDraft(gh, bundle);
      if r.Err? {
        return;
      }
      r := GoPublic(gh, bundle, release);
      if r.Err? {
        return;
      }
    }
    ValidIsLawful(gh);
    LawfulIsDistinct(gh.remote, gh.tag);
    r := VerifyPublic(gh, bundle);
  }

  /** A public release holds its bundle, so nothing is missing from it. */
  lemma PublicIsExact(r: Remote, tag: string, bundle: Bundle)
    requires Lawful(r, tag) && Owned(r, bundle)
    ensures IsDraft(r) ==> r.release.value.prerelease
    ensures !IsDraft(r) ==> Exact(r.rows, bundle.assets) && Missing(r.rows, bundle.assets) == {}
  {
    if !IsDraft(r) {
      forall name | name in bundle.assets ensures HasUploaded(r.rows, name) {
        var i :| 0 <= i < |r.rows| && r.rows[i].name == name;
        assert r.rows[i] in r.rows && Matches(r.rows[i], bundle.assets);
      }
    }
  }

  /** Drop the prerelease flag of a verified prerelease and record the evidence. */
  method DropPrereleaseFlag(gh: GitHub, bundle: Bundle, release: Release, evidence: Evidence)
    returns (r: Result<(), Error>)
    requires Valid(gh) && gh.remote.release == Some(release) && !release.draft && release.prerelease
    requires Owned(gh.remote, bundle) && bundle.tag == gh.tag
    modifies gh
    ensures Valid(gh) && old(gh.trace) <= gh.trace
    ensures gh.remote.rows == old(gh.remote.rows) && Owned(gh.remote, bundle)
    ensures gh.remote.release.value.id == release.id
    ensures r.Ok? ==>
      gh.remote.release == Some(release.(prerelease := false, body := PromotedBody(release.body, evidence)))
    ensures old(Smooth(gh, bundle)) ==> r.Ok?
  {
    ValidIsLawful(gh);
    r := VerifyTag(gh, bundle.source);
    if r.Err? {
      return;
    }
    var next := release.(prerelease := false, body := PromotedBody(release.body, evidence));
    ghost var o := gh.Next();
    UpdateIsLawful(gh.remote, next, o, gh.tag);
    HistoryGrows(gh.trace, AfterUpdate(gh.remote, next, o), gh.tag);
    var updated := gh.Update(next);
    if updated.Err? {
      return Err(updated.error);
    }
    if ReleaseIdFor(updated.value, bundle) != Ok(release.id) || updated.value.draft || updated.value.prerelease {
      return Err(Rejected("not promoted"));
    }
    return Ok(());
  }

  /** The release can be promoted with this evidence, or already was. */
  ghost predicate Promotable(r: Remote, bundle: Bundle, evidence: Evidence) {
    && Owned(r, bundle) && !IsDraft(r) && EvidenceAccepted(evidence, r.release.value.id, bundle)
    && (!r.release.value.prerelease ==> EvidenceMarker(evidence.digest) in r.release.value.body)
  }

  method PromoteRelease(gh: GitHub, bundle: Bundle, release: Release, evidence: Evidence)
    returns (r: Result<(), Error>)
    requires Valid(gh) && bundle.Valid() && bundle.tag == gh.tag
    requires gh.remote.release == Some(release) && Owned(gh.remote, bundle)
    modifies gh
    ensures Valid(gh) && old(gh.trace) <= gh.trace
    ensures Owned(gh.remote, bundle) && gh.remote.release.value.id == release.id
    ensures gh.remote.rows == old(gh.remote.rows)
    ensures release.draft || !release.prerelease ==> gh.remote == old(gh.remote)
    ensures r.Ok? ==>
      && Stage(gh.remote) == 3 && Exact(gh.remote.rows, bundle.assets)
      && EvidenceMarker(evidence.digest) in gh.remote.release.value.body
    ensures old(Smooth(gh, bundle) && Promotable(gh.remote, bundle, evidence)) ==> r.Ok?
  {
    hide Lawful, Exact, DistinctRows, Keeps;
    ValidIsLawful(gh);
    LawfulIsDistinct(gh.remote, gh.tag);
    PublicIsExact(gh.remote, gh.tag, bundle);
    if release.draft {
      return Err(Rejected("publish a prerelease first"));
    }
    if !EvidenceAccepted(evidence, release.id, bundle) {
      return Err(Rejected("provisioning evidence"));
    }
    if !release.prerelease && EvidenceMarker(evidence.digest) !in release.body {
      return Err(Rejected("already promoted with different evidence"));
    }
    r := VerifyPublic(gh, bundle);
    if r.Err? {
      return;
    }
    if release.prerelease {
      r := DropPrereleaseFlag(gh, bundle, release, evidence);
      if r.Err? {
        return;
      }
      assert EvidenceMarker(evidence.digest) in PromotedBody(release.body, evidence) by {
        assert PromotedBody(release.body, evidence)[|release.body| + 1] == EvidenceMarker(evidence.digest);
      }
    }
  }

  lemma OwnedHasId(r: Remote, bundle: Bundle)
    requires Lawful(r, bundle.tag) && Owned(r, bundle)
    ensures ReleaseIdFor(r.release.value, bundle) == Ok(r.release.value.id)
  {
  }

  method Publish(gh: GitHub, dispatch: Dispatch, bundle: Bundle, notes: seq<BodyLine>)
    returns (r: Result<nat, Error>)
    requires Valid(gh) && bundle.Valid() && bundle.tag == gh.tag
    modifies gh
    // Whatever fails, the remote side only moves lawfully.
    ensures Valid(gh) && old(gh.trace) <= gh.trace
    // A success is the public release of exactly this bundle.
    ensures r.Ok? ==>
      && Owned(gh.remote, bundle) && r.value == gh.remote.release.value.id
      && Exact(gh.remote.rows, bundle.assets)
      && Stage(gh.remote) >= if dispatch.Promote? then 3 else 2
    ensures r.Ok? && dispatch.Promote? ==>
      EvidenceMarker(dispatch.evidence.digest) in gh.remote.release.value.body
    // A public release is changed by nothing but its first promotion, and a foreign one by nothing.
    ensures old(Stage(gh.remote) == 3 || (Stage(gh.remote) == 2 && dispatch.Prerelease?)) ==> gh.remote == old(gh.remote)
    ensures old(gh.remote.release.Some? && !Owned(gh.remote, bundle)) ==> gh.remote == old(gh.remote) && r.Err?
    // Without corrupted uploads, what is left behind can be completed.
    ensures old(Uncorrupted(gh.script) && CleanRemote(gh.remote)) ==> CleanRemote(gh.remote)
    // Recovery: without a failing call, a resumable state becomes public, with one upload for each missing asset.
    ensures dispatch.Prerelease? && old(Smooth(gh, bundle) && Resumable(gh.remote, bundle)) ==>
      && r.Ok?
      && gh.remote.nextId == old(gh.remote.nextId + |Missing(gh.remote.rows, bundle.assets)|)
    // Nothing else can be completed: success needs rows that are approved bytes or empty uploads.
    ensures r.Ok? && dispatch.Prerelease? ==> old(CleanRemote(gh.remote))
    ensures dispatch.Prerelease? && old(Smooth(gh, bundle) && Completable(gh.remote, bundle)) ==>
      (r.Ok? <==> old(CleanRemote(gh.remote)))
    ensures dispatch.Promote? && old(Smooth(gh, bundle) && Promotable(gh.remote, bundle, dispatch.evidence)) ==> r.Ok?
  {
    hide Lawful, Exact, DistinctRows, Keeps, Clean, HasUploaded;
    ghost var r0 := gh.remote;
    var found := FindOrCreate(gh, dispatch, bundle, notes);
    if found.Err? {
      return Err(found.error);
    }
    var release := found.value;
    ValidIsLawful(gh);
    if Owned(gh.remote, bundle) {
      OwnedHasId(gh.remote, bundle);
    }
    var id := ReleaseIdFor(release, bundle);
    if id.Err? {
      return id;
    }
    var done: Result<(), Error>;
    match dispatch {
      case Promote(evidence) =>
        done := PromoteRelease(gh, bundle, release, evidence);
      case Prerelease =>
        done := PublishPrerelease(gh, bundle, release);
    }
    if done.Err? {
      return Err(done.error);
    }
    return Ok(id.value);
  }

  // ----- Runs -----

  /** One dispatched run, with how each of its calls goes. */
  datatype Run = Run(dispatch: Dispatch, bundle: Bundle, notes: seq<BodyLine>, script: seq<Outcome>)

  /** Any sequence of runs, of any bundles for the tag, each failing at any of its calls. */
  method RunAll(gh: GitHub, runs: seq<Run>)
    requires Valid(gh)
    requires forall i :: 0 <= i < |runs| ==> runs[i].bundle.Valid() && runs[i].bundle.tag == gh.tag
    modifies gh
    ensures Valid(gh) && old(gh.trace) <= gh.trace
    ensures old(CleanRemote(gh.remote)) && (forall i :: 0 <= i < |runs| ==> Uncorrupted(runs[i].script)) ==>
      CleanRemote(gh.remote)
  {
    hide CleanRemote, Smooth, Resumable, Promotable;
    for i := 0 to |runs|
      invariant Valid(gh) && old(gh.trace) <= gh.trace
      invariant old(CleanRemote(gh.remote)) && (forall k :: 0 <= k < i ==> Uncorrupted(runs[k].script)) ==>
        CleanRemote(gh.remote)
    {
      gh.script := runs[i].script;
      var result := Publish(gh, runs[i].dispatch, runs[i].bundle, runs[i].notes);
    }
  }

  lemma FreshIsValid(gh: GitHub)
    requires gh.releaseId > 0 && gh.remote == Remote(None, [], 1) && gh.trace == [gh.remote]
    ensures Valid(gh) && CleanRemote(gh.remote)
  {
  }

  /**
   Recovery: from the state after any sequence of runs, one run without failing calls publishes the bundle that owns
   the tag (or any bundle, when no release was created) exactly when every row is approved bytes or an empty upload,
   and then uploads each missing asset exactly once. Runs that store no wrong bytes always leave such a state.
   */
  method RecoverAfterRuns(gh: GitHub, runs: seq<Run>, bundle: Bundle, notes: seq<BodyLine>)
    returns (r: Result<nat, Error>, ghost before: Remote)
    requires gh.releaseId > 0 && gh.remote == Remote(None, [], 1) && gh.trace == [gh.remote]
    requires bundle.Valid() && bundle.tag == gh.tag && bundle.source == gh.commit
    requires forall i :: 0 <= i < |runs| ==> runs[i].bundle.Valid() && runs[i].bundle.tag == gh.tag
    modifies gh
    ensures Valid(gh) && before in gh.trace
    ensures (forall i :: 0 <= i < |runs| ==> Uncorrupted(runs[i].script)) ==> CleanRemote(before)
    ensures Completable(before, bundle) ==> (r.Ok? <==> CleanRemote(before))
    ensures Completable(before, bundle) && r.Ok? ==>
      && Owned(gh.remote, bundle) && Stage(gh.remote) >= 2 && Exact(gh.remote.rows, bundle.assets)
      && gh.remote.nextId == before.nextId + |Missing(before.rows, bundle.assets)|
  {
    hide Missing, Exact, Clean, DistinctRows, Lawful, Advances, Keeps;
    FreshIsValid(gh);
    RunAll(gh, runs);
    before := gh.remote;
    gh.script := [];
    r := Publish(gh, Prerelease, bundle, notes);
  }

  /**
   There is no recovery from wrong bytes: a draft with an uploaded row that its own manifest does not approve stays a
   draft for ever, whatever runs follow.
   */
  lemma SpoiltForEver(trace: seq<Remote>, tag: string, i: nat, j: nat, row: Row)
    requires History(trace, tag) && i <= j < |trace| && Stage(trace[i]) == 1
    requires row in trace[i].rows && row.state == Uploaded
    requires !Matches(row, trace[i].release.value.body[0].manifest)
    ensures Stage(trace[j]) == 1
  {
    HistoryKeeps(trace, tag, i, j);
    if Stage(trace[j]) >= 2 {
      PublicRowMatches(trace[j], tag, row);
    }
  }

  lemma PublicRowMatches(r: Remote, tag: string, row: Row)
    requires Lawful(r, tag) && Stage(r) >= 2 && row in r.rows
    ensures Matches(row, r.release.value.body[0].manifest)
  {
    var k :| 0 <= k < |r.rows| && r.rows[k] == row;
    assert Matches(r.rows[k], r.release.value.body[0].manifest);
  }

  /** The lifecycle passes through every stage: whatever was a release later was a public prerelease in between. */
  lemma NoStageSkipped(trace: seq<Remote>, tag: string, i: nat, j: nat, stage: nat) returns (k: nat)
    requires History(trace, tag) && i <= j < |trace| && Stage(trace[i]) <= stage <= Stage(trace[j])
    ensures i <= k <= j && Stage(trace[k]) == stage
    decreases j
  {
    if Stage(trace[j]) == stage {
      k := j;
    } else {
      assert Advances(trace[j - 1], trace[j]);
      k := NoStageSkipped(trace, tag, i, j - 1, stage);
    }
  }

  /** In a history, a release that is public at some point holds exactly its bundle then and at every later point. */
  lemma PublicForEver(trace: seq<Remote>, tag: string, i: nat, j: nat)
    requires History(trace, tag) && i <= j < |trace| && Stage(trace[i]) >= 2
    ensures Stage(trace[j]) >= Stage(trace[i])
    ensures trace[j].rows == trace[i].rows
    ensures Exact(trace[j].rows, trace[j].release.value.body[0].manifest)
    ensures trace[j].release.value.body[0] == trace[i].release.value.body[0]
  {
    HistoryKeeps(trace, tag, i, j);
  }

  /** In a history, a row once uploaded is still there, with the same bytes, at every later point. */
  lemma UploadedForEver(trace: seq<Remote>, tag: string, i: nat, j: nat, row: Row)
    requires History(trace, tag) && i <= j < |trace|
    requires row in trace[i].rows && row.state == Uploaded
    ensures row in trace[j].rows
  {
    HistoryKeeps(trace, tag, i, j);
  }
}
