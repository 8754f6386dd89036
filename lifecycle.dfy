/**
 * The archive lifecycle: HandleClean moves every current event into a new archive,
 * HandleRenameArchive renames an archive, HandleDeleteArchive removes an archive's files
 * and rows. The id in the path arrives already parsed (None when strconv.ParseInt fails);
 * the creation stamp of an archive is a parameter.
 */
module Lifecycle {
  import opened Base
  import opened Strings
  import opened Store

  datatype CleanOutcome =
    | NothingToArchive                          // the count failed or was zero: redirect, nothing written
    | CreateFailed                              // 500 "failed to create archive"
    | MoveFailed(archiveId: nat)                // 500 "failed to archive events"; the archive row stays
    | Archived(archiveId: nat, count: nat)      // redirect after the move

  /** HandleClean's answer, from the events table, the next archive id and the outcome of its three statements. */
  function CleanResult(events: seq<EventRow>, nextArchiveId: nat, countOk: bool, createOk: bool, moveOk: bool)
    : CleanOutcome
  {
    if !countOk || CountCurrent(events) == 0 then NothingToArchive
    else if !createOk then CreateFailed
    else if !moveOk then MoveFailed(nextArchiveId)
    else Archived(nextArchiveId, CountCurrent(events))
  }

  /** HandleClean: count, then create the archive stamped with the count, then move the events into it. */
  method Clean(db: Database, stamp: string, countOk: bool, createOk: bool, moveOk: bool) returns (r: CleanOutcome)
    requires db.Valid()
    modifies db`archives, db`nextArchiveId, db`events
    ensures db.Valid()
    ensures r == CleanResult(old(db.events), old(db.nextArchiveId), countOk, createOk, moveOk)
    ensures r.NothingToArchive? || r.CreateFailed? ==>
      db.archives == old(db.archives) && db.nextArchiveId == old(db.nextArchiveId)
    ensures r.MoveFailed? || r.Archived? ==>
      db.archives == old(db.archives) + [ArchiveRow(r.archiveId, Some(stamp), CountCurrent(old(db.events)))]
      && db.nextArchiveId == r.archiveId + 1
    ensures db.events == if r.Archived? then ArchiveCurrent(old(db.events), r.archiveId) else old(db.events)
  {
    var count := db.CountCurrentEvents(countOk);
    if count.None? || count.value == 0 {
      return NothingToArchive;
    }
    var archiveId := db.CreateArchive(stamp, count.value, createOk);
    if archiveId.None? {
      return CreateFailed;
    }
    var moved := db.ArchiveCurrentEvents(archiveId.value, moveOk);
    if !moved {
      return MoveFailed(archiveId.value);
    }
    return Archived(archiveId.value, count.value);
  }

  /** After the move no event is current. */
  lemma {:induction false} ArchiveCurrentLeavesNone(events: seq<EventRow>, archiveId: nat)
    ensures CountCurrent(ArchiveCurrent(events, archiveId)) == 0
    decreases |events|
  {
    if events != [] {
      ArchiveCurrentLeavesNone(events[1..], archiveId);
    }
  }

  /** The archive gains exactly the events that were current. */
  lemma {:induction false} ArchiveCurrentGathers(events: seq<EventRow>, archiveId: nat)
    ensures CountInArchive(ArchiveCurrent(events, archiveId), archiveId)
      == CountInArchive(events, archiveId) + CountCurrent(events)
    decreases |events|
  {
    if events != [] {
      ArchiveCurrentGathers(events[1..], archiveId);
    }
  }

  /** Every other archive keeps its events. */
  lemma {:induction false} ArchiveCurrentKeepsOthers(events: seq<EventRow>, archiveId: nat, other: int)
    requires other != archiveId
    ensures CountInArchive(ArchiveCurrent(events, archiveId), other) == CountInArchive(events, other)
    decreases |events|
  {
    if events != [] {
      ArchiveCurrentKeepsOthers(events[1..], archiveId, other);
    }
  }

  /** No event belongs to an archive id that was never issued. */
  lemma {:induction false} UnissuedArchiveEmpty(events: seq<EventRow>, archiveId: nat)
    requires forall i :: 0 <= i < |events| && events[i].archiveId.Some? ==> events[i].archiveId.value < archiveId
    ensures CountInArchive(events, archiveId) == 0
    decreases |events|
  {
    if events != [] {
      assert forall i :: 0 <= i < |events| - 1 ==> events[1..][i] == events[i + 1];
      UnissuedArchiveEmpty(events[1..], archiveId);
    }
  }

  /**
   * A successful clean leaves no current event, and the new archive holds exactly as many
   * events as the count it was stamped with.
   */
  lemma CleanArchivesEverything(events: seq<EventRow>, nextEventId: nat, nextArchiveId: nat,
                                countOk: bool, createOk: bool, moveOk: bool)
    requires EventsValid(events, nextEventId, nextArchiveId)
    requires CleanResult(events, nextArchiveId, countOk, createOk, moveOk).Archived?
    ensures var r := CleanResult(events, nextArchiveId, countOk, createOk, moveOk);
      && CountCurrent(ArchiveCurrent(events, r.archiveId)) == 0
      && CountInArchive(ArchiveCurrent(events, r.archiveId), r.archiveId) == r.count > 0
  {
    ArchiveCurrentLeavesNone(events, nextArchiveId);
    ArchiveCurrentGathers(events, nextArchiveId);
    UnissuedArchiveEmpty(events, nextArchiveId);
  }

  /** Cleaning again right after a successful clean finds nothing to archive. */
  lemma CleanTwiceArchivesNothing(events: seq<EventRow>, archiveId: nat, nextArchiveId: nat,
                                  countOk: bool, createOk: bool, moveOk: bool)
    ensures CleanResult(ArchiveCurrent(events, archiveId), nextArchiveId, countOk, createOk, moveOk) == NothingToArchive
  {
    ArchiveCurrentLeavesNone(events, archiveId);
  }

  datatype RenameOutcome =
    | RenameInvalidId                  // 400 "invalid archive id"
    | NameRequired                     // 400 "name is required"
    | RenameFailed                     // 500 "failed to rename archive"
    | Renamed(id: int, name: string, location: string)   // 303 to the referer, or to the root

  /** HandleRenameArchive's answer: the name is trimmed and must not be empty; success returns to the referring page. */
  function RenameResult(id: Option<int>, rawName: string, referer: string, ok: bool): RenameOutcome
  {
    if id.None? then RenameInvalidId
    else
      var name := TrimSpace(rawName);
      if name == "" then NameRequired
      else if !ok then RenameFailed
      else Renamed(id.value, name, if referer == "" then "/" else referer)
  }

  method Rename(db: Database, id: Option<int>, rawName: string, referer: string, ok: bool) returns (r: RenameOutcome)
    requires db.Valid()
    modifies db`archives
    ensures db.Valid()
    ensures r == RenameResult(id, rawName, referer, ok)
    ensures db.archives == if r.Renamed? then WithArchiveName(old(db.archives), r.id, r.name) else old(db.archives)
  {
    if id.None? {
      return RenameInvalidId;
    }
    var name := TrimSpace(rawName);
    if name == "" {
      return NameRequired;
    }
    var success := db.RenameArchive(id.value, name, ok);
    if !success {
      return RenameFailed;
    }
    var location := referer;
    if location == "" {
      location := "/";
    }
    return Renamed(id.value, name, location);
  }

  /** A blank name is rejected exactly when the form value is all white space. */
  lemma RenameRejectsBlank(id: int, rawName: string, referer: string, ok: bool)
    ensures RenameResult(Some(id), rawName, referer, ok) == NameRequired <==>
      forall i :: 0 <= i < |rawName| ==> IsSpace(rawName[i])
  {
    TrimSpaceEmptyIff(rawName);
  }

  /** The stored name is non-empty, neither starts nor ends with white space, and sits inside the form value. */
  lemma RenamedNameIsTrimmed(id: Option<int>, rawName: string, referer: string, ok: bool)
    requires RenameResult(id, rawName, referer, ok).Renamed?
    ensures var n := RenameResult(id, rawName, referer, ok).name;
      && n != "" && !IsSpace(n[0]) && !IsSpace(n[|n| - 1])
      && Contains(rawName, n)
  {
    var t := TrimLeft(rawName);
    var n := TrimRight(t);
    TrimSpaceEnds(rawName);
    TrimLeftSpec(rawName);
    TrimRightSpec(t);
    var i := |rawName| - |t|;
    assert rawName[i..] == t;
    assert HasPrefix(rawName[i..], n);
    ContainsAt(rawName, n, i);
  }

  /** Submitting the stored name again stores the same name. */
  lemma RenameTrimIdempotent(rawName: string)
    ensures TrimSpace(TrimSpace(rawName)) == TrimSpace(rawName)
  {
    var n := TrimSpace(rawName);
    if n != "" {
      TrimSpaceEnds(rawName);
      assert TrimLeft(n) == n;
      assert TrimRight(n) == n;
    }
  }

  /** Only the archive with the id is renamed, and the later of two renames wins. */
  lemma RenameLastWins(archives: seq<ArchiveRow>, id: int, first: string, second: string)
    ensures WithArchiveName(WithArchiveName(archives, id, first), id, second) == WithArchiveName(archives, id, second)
  {
    var lhs, rhs := WithArchiveName(WithArchiveName(archives, id, first), id, second), WithArchiveName(archives, id, second);
    assert forall i :: 0 <= i < |lhs| ==> lhs[i] == rhs[i];
  }

  /** A row of GetArchivedEventFiles: an archived event's JSON file name and the disk name of one of its images. */
  datatype ArchivedFile = ArchivedFile(jsonFilename: Option<string>, diskFilename: Option<string>)

  /** The non-empty JSON file names listed. */
  function ListedJson(files: seq<ArchivedFile>): set<string>
  {
    set f | f in files && f.jsonFilename.Some? && f.jsonFilename.value != "" :: f.jsonFilename.value
  }

  /** The non-empty image disk names listed. */
  function ListedImages(files: seq<ArchivedFile>): set<string>
  {
    set f | f in files && f.diskFilename.Some? && f.diskFilename.value != "" :: f.diskFilename.value
  }

  lemma ListedAppend(files: seq<ArchivedFile>, f: ArchivedFile)
    ensures ListedJson(files + [f])
      == ListedJson(files) + (if f.jsonFilename.Some? && f.jsonFilename.value != "" then {f.jsonFilename.value} else {})
    ensures ListedImages(files + [f])
      == ListedImages(files) + (if f.diskFilename.Some? && f.diskFilename.value != "" then {f.diskFilename.value} else {})
  {
    assert forall g :: g in files + [f] <==> g in files || g == f;
  }

  /** The file loop of HandleDeleteArchive: both names of every listed row are removed, errors ignored. */
  method RemoveArchivedFiles(fs: DataDir, files: seq<ArchivedFile>)
    modifies fs`jsonFiles, fs`imageFiles
    ensures fs.jsonFiles == old(fs.jsonFiles) - ListedJson(files)
    ensures fs.imageFiles == old(fs.imageFiles) - ListedImages(files)
  {
    for i := 0 to |files|
      invariant fs.jsonFiles == old(fs.jsonFiles) - ListedJson(files[..i])
      invariant fs.imageFiles == old(fs.imageFiles) - ListedImages(files[..i])
    {
      var f := files[i];
      ListedAppend(files[..i], f);
      assert files[..i + 1] == files[..i] + [f];
      if f.jsonFilename.Some? && f.jsonFilename.value != "" {
        fs.RemoveJson(f.jsonFilename.value);
      }
      if f.diskFilename.Some? && f.diskFilename.value != "" {
        fs.RemoveImage(f.diskFilename.value);
      }
    }
    assert files[..|files|] == files;
  }

  datatype DeleteOutcome = DeleteInvalidId | Deleted

  /**
   * HandleDeleteArchive: the listed files go (a failed listing lists nothing), then the images,
   * events and archive rows, each statement's failure only logged. Compare results are not deleted.
   */
  method DeleteArchive(db: Database, fs: DataDir, id: Option<int>, files: Option<seq<ArchivedFile>>,
                       imagesOk: bool, eventsOk: bool, archiveOk: bool)
    returns (r: DeleteOutcome)
    requires db.Valid()
    modifies db`images, db`events, db`archives, fs`jsonFiles, fs`imageFiles
    ensures db.Valid()
    ensures r == if id.None? then DeleteInvalidId else Deleted
    ensures var listed := if id.Some? && files.Some? then files.value else [];
      && fs.jsonFiles == old(fs.jsonFiles) - ListedJson(listed)
      && fs.imageFiles == old(fs.imageFiles) - ListedImages(listed)
    ensures db.images ==
      if id.Some? && imagesOk then ImagesOutside(old(db.images), ArchiveEventIds(old(db.events), id.value)) else old(db.images)
    ensures db.events == if id.Some? && eventsOk then EventsOutside(old(db.events), id.value) else old(db.events)
    ensures db.archives == if id.Some? && archiveOk then ArchivesOtherThan(old(db.archives), id.value) else old(db.archives)
    ensures db.compareResults == old(db.compareResults)
  {
    if id.None? {
      return DeleteInvalidId;
    }
    var listed := if files.Some? then files.value else [];
    RemoveArchivedFiles(fs, listed);
    db.DeleteArchiveImages(id.value, imagesOk);
    db.DeleteArchiveEvents(id.value, eventsOk);
    db.DeleteArchive(id.value, archiveOk);
    return Deleted;
  }

  /** Deleting an archive keeps the current events and every other archive's events. */
  lemma {:induction false} DeleteKeepsOthers(events: seq<EventRow>, archiveId: int, other: int)
    requires other != archiveId
    ensures CountInArchive(EventsOutside(events, archiveId), other) == CountInArchive(events, other)
    ensures CountCurrent(EventsOutside(events, archiveId)) == CountCurrent(events)
    ensures CountInArchive(EventsOutside(events, archiveId), archiveId) == 0
    decreases |events|
  {
    if events != [] {
      var rest := EventsOutside(events[1..], archiveId);
      DeleteKeepsOthers(events[1..], archiveId, other);
      if InArchive(events[0], archiveId) {
        assert EventsOutside(events, archiveId) == rest;
      } else {
        assert EventsOutside(events, archiveId) == [events[0]] + rest;
        assert ([events[0]] + rest)[1..] == rest;
      }
    }
  }
}
