/**
 * The server's persistent state, reduced to what the handlers do with it: the database
 * tables (events, images, archives, compare results) with their id counters, and the
 * data directory's `json` and `images` sub-directories. Every statement that can fail
 * takes its outcome as a parameter.
 */
module Store {
  import opened Base
  import opened Normalize

  /** An events row: the inserted columns, the backfilled JSON file name and the archive it belongs to. */
  datatype EventRow = EventRow(id: nat, fields: EventFields, jsonFilename: Option<string>, archiveId: Option<nat>)

  /** An images row. */
  datatype ImageRow = ImageRow(
    id: nat, eventId: nat, imageType: string, filename: string, data: Bytes, diskFilename: Option<string>)

  /** An archives row; EventCount is fixed when the archive is created. */
  datatype ArchiveRow = ArchiveRow(id: nat, name: Option<string>, eventCount: nat)

  /** The unique key of a compare result. */
  datatype CompareKey = CompareKey(archiveId: int, eventId: int, field: string)

  /**
   * The outcome of insertImageWithID: the insert fails; the row is inserted but reading
   * last_insert_rowid fails (the row stays, the caller sees an error); or both succeed.
   */
  datatype InsertOutcome = RowFailed | IdLookupFailed | Inserted

  predicate InArchive(e: EventRow, archiveId: int)
  {
    e.archiveId.Some? && e.archiveId.value == archiveId
  }

  /** Events whose archive_id is NULL. */
  function CountCurrent(events: seq<EventRow>): (n: nat)
    ensures n <= |events|
  {
    if events == [] then 0 else (if events[0].archiveId.None? then 1 else 0) + CountCurrent(events[1..])
  }

  function CountInArchive(events: seq<EventRow>, archiveId: int): (n: nat)
    ensures n <= |events|
  {
    if events == [] then 0 else (if InArchive(events[0], archiveId) then 1 else 0) + CountInArchive(events[1..], archiveId)
  }

  /** Every current event is assigned to the archive; archived events keep their archive. */
  function ArchiveCurrent(events: seq<EventRow>, archiveId: nat): (r: seq<EventRow>)
    ensures |r| == |events|
    ensures forall i :: 0 <= i < |events| ==>
      r[i] == events[i].(archiveId := if events[i].archiveId.None? then Some(archiveId) else events[i].archiveId)
  {
    if events == [] then []
    else
      var e := events[0];
      [e.(archiveId := if e.archiveId.None? then Some(archiveId) else e.archiveId)] + ArchiveCurrent(events[1..], archiveId)
  }

  /** The rows of the events table whose id matches get the JSON file name. */
  function WithJsonFilename(events: seq<EventRow>, id: int, name: string): (r: seq<EventRow>)
    ensures |r| == |events|
    ensures forall i :: 0 <= i < |events| ==>
      r[i] == if events[i].id == id then events[i].(jsonFilename := Some(name)) else events[i]
  {
    seq(|events|, i requires 0 <= i < |events| =>
      if events[i].id == id then events[i].(jsonFilename := Some(name)) else events[i])
  }

  function WithDiskFilename(images: seq<ImageRow>, id: int, name: string): (r: seq<ImageRow>)
    ensures |r| == |images|
    ensures forall i :: 0 <= i < |images| ==>
      r[i] == if images[i].id == id then images[i].(diskFilename := Some(name)) else images[i]
  {
    seq(|images|, i requires 0 <= i < |images| =>
      if images[i].id == id then images[i].(diskFilename := Some(name)) else images[i])
  }

  function WithArchiveName(archives: seq<ArchiveRow>, id: int, name: string): (r: seq<ArchiveRow>)
    ensures |r| == |archives|
    ensures forall i :: 0 <= i < |archives| ==>
      r[i] == if archives[i].id == id then archives[i].(name := Some(name)) else archives[i]
  {
    seq(|archives|, i requires 0 <= i < |archives| =>
      if archives[i].id == id then archives[i].(name := Some(name)) else archives[i])
  }

  /** The events outside the archive, in order. */
  function EventsOutside(events: seq<EventRow>, archiveId: int): (r: seq<EventRow>)
    ensures forall e :: e in r <==> e in events && !InArchive(e, archiveId)
  {
    if events == [] then []
    else (if InArchive(events[0], archiveId) then [] else [events[0]]) + EventsOutside(events[1..], archiveId)
  }

  /** The ids of the events in the archive. */
  function ArchiveEventIds(events: seq<EventRow>, archiveId: int): (ids: set<nat>)
    ensures forall id :: id in ids <==> exists e :: e in events && InArchive(e, archiveId) && e.id == id
  {
    set e | e in events && InArchive(e, archiveId) :: e.id
  }

  /** The images whose event is not one of the given ones, in order. */
  function ImagesOutside(images: seq<ImageRow>, eventIds: set<nat>): (r: seq<ImageRow>)
    ensures forall m :: m in r <==> m in images && m.eventId !in eventIds
  {
    if images == [] then []
    else (if images[0].eventId in eventIds then [] else [images[0]]) + ImagesOutside(images[1..], eventIds)
  }

  function ArchivesOtherThan(archives: seq<ArchiveRow>, id: int): (r: seq<ArchiveRow>)
    ensures forall a :: a in r <==> a in archives && a.id != id
  {
    if archives == [] then []
    else (if archives[0].id == id then [] else [archives[0]]) + ArchivesOtherThan(archives[1..], id)
  }

  predicate EventIdsIncreasing(s: seq<EventRow>)
  {
    forall i, j :: 0 <= i < j < |s| ==> s[i].id < s[j].id
  }

  predicate ImageIdsIncreasing(s: seq<ImageRow>)
  {
    forall i, j :: 0 <= i < j < |s| ==> s[i].id < s[j].id
  }

  predicate ArchiveIdsIncreasing(s: seq<ArchiveRow>)
  {
    forall i, j :: 0 <= i < j < |s| ==> s[i].id < s[j].id
  }

  /** Event ids are increasing and below the next id; archive references point at issued archive ids. */
  ghost predicate EventsValid(events: seq<EventRow>, nextEventId: nat, nextArchiveId: nat)
  {
    && (forall i :: 0 <= i < |events| ==> events[i].id < nextEventId)
    && EventIdsIncreasing(events)
    && (forall i :: 0 <= i < |events| && events[i].archiveId.Some? ==> events[i].archiveId.value < nextArchiveId)
  }

  /** Image ids are increasing and below the next id. */
  ghost predicate ImagesValid(images: seq<ImageRow>, nextImageId: nat)
  {
    (forall i :: 0 <= i < |images| ==> images[i].id < nextImageId) && ImageIdsIncreasing(images)
  }

  /** Archive ids are increasing and below the next id. */
  ghost predicate ArchivesValid(archives: seq<ArchiveRow>, nextArchiveId: nat)
  {
    (forall i :: 0 <= i < |archives| ==> archives[i].id < nextArchiveId) && ArchiveIdsIncreasing(archives)
  }

  class Database {
    var events: seq<EventRow>
    var images: seq<ImageRow>
    var archives: seq<ArchiveRow>
    var compareResults: map<CompareKey, bool>
    var nextEventId: nat
    var nextImageId: nat
    var nextArchiveId: nat

    /** Ids are assigned in increasing order and are below the next id of their table. */
    ghost predicate Valid()
      reads this
    {
      EventsValid(events, nextEventId, nextArchiveId) && ImagesValid(images, nextImageId)
      && ArchivesValid(archives, nextArchiveId)
    }

    constructor ()
      ensures Valid()
      ensures events == [] && images == [] && archives == [] && compareResults == map[]
      ensures nextEventId == 1 && nextImageId == 1 && nextArchiveId == 1
    {
      events, images, archives, compareResults := [], [], [], map[];
      nextEventId, nextImageId, nextArchiveId := 1, 1, 1;
    }

    /** InsertEvent: a new current event with a fresh id, or nothing when the statement fails. */
    method InsertEvent(fields: EventFields, ok: bool) returns (id: Option<nat>)
      requires Valid()
      modifies this`events, this`nextEventId
      ensures Valid()
      ensures ok ==>
        id == Some(old(nextEventId)) && nextEventId == old(nextEventId) + 1
        && events == old(events) + [EventRow(old(nextEventId), fields, None, None)]
      ensures !ok ==> id == None && events == old(events) && nextEventId == old(nextEventId)
    {
      if !ok {
        return None;
      }
      id := Some(nextEventId);
      events := events + [EventRow(nextEventId, fields, None, None)];
      nextEventId := nextEventId + 1;
    }

    /** UpdateEventJsonFilename */
    method UpdateEventJsonFilename(id: int, name: string)
      requires Valid()
      modifies this`events
      ensures Valid()
      ensures events == WithJsonFilename(old(events), id, name)
    {
      events := WithJsonFilename(events, id, name);
    }

    /** insertImageWithID: the id of the new row, or None when either statement fails. */
    method InsertImageWithId(eventId: nat, imageType: string, filename: string, data: Bytes, outcome: InsertOutcome)
      returns (id: Option<nat>)
      requires Valid()
      modifies this`images, this`nextImageId
      ensures Valid()
      ensures outcome == RowFailed ==> images == old(images) && nextImageId == old(nextImageId)
      ensures outcome != RowFailed ==>
        images == old(images) + [ImageRow(old(nextImageId), eventId, imageType, filename, data, None)]
        && nextImageId == old(nextImageId) + 1
      ensures id == if outcome == Inserted then Some(old(nextImageId)) else None
    {
      id := None;
      if outcome == RowFailed {
        return;
      }
      var newId := nextImageId;
      images := images + [ImageRow(newId, eventId, imageType, filename, data, None)];
      nextImageId := nextImageId + 1;
      if outcome == Inserted {
        id := Some(newId);
      }
    }

    /** UpdateImageDiskFilename */
    method UpdateImageDiskFilename(id: int, name: string)
      requires Valid()
      modifies this`images
      ensures Valid()
      ensures images == WithDiskFilename(old(images), id, name)
    {
      images := WithDiskFilename(images, id, name);
    }

    /** CountCurrentEvents: the number of events with no archive, or None when the query fails. */
    method CountCurrentEvents(ok: bool) returns (count: Option<nat>)
      ensures count == if ok then Some(CountCurrent(events)) else None
    {
      if !ok {
        return None;
      }
      var n := 0;
      for i := 0 to |events|
        invariant n == CountCurrent(events[..i])
      {
        CountCurrentAppend(events[..i], events[i]);
        assert events[..i + 1] == events[..i] + [events[i]];
        if events[i].archiveId.None? {
          n := n + 1;
        }
      }
      assert events[..|events|] == events;
      count := Some(n);
    }

    /** CreateArchive: a new archive row with a fresh id. */
    method CreateArchive(name: string, eventCount: nat, ok: bool) returns (id: Option<nat>)
      requires Valid()
      modifies this`archives, this`nextArchiveId
      ensures Valid()
      ensures ok ==>
        id == Some(old(nextArchiveId)) && nextArchiveId == old(nextArchiveId) + 1
        && archives == old(archives) + [ArchiveRow(old(nextArchiveId), Some(name), eventCount)]
      ensures !ok ==> id == None && archives == old(archives) && nextArchiveId == old(nextArchiveId)
    {
      if !ok {
        return None;
      }
      id := Some(nextArchiveId);
      archives := archives + [ArchiveRow(nextArchiveId, Some(name), eventCount)];
      nextArchiveId := nextArchiveId + 1;
    }

    /** ArchiveCurrentEvents: every event with no archive joins the given one. */
    method ArchiveCurrentEvents(archiveId: nat, ok: bool) returns (success: bool)
      requires Valid() && archiveId < nextArchiveId
      modifies this`events
      ensures Valid()
      ensures success == ok
      ensures events == if ok then ArchiveCurrent(old(events), archiveId) else old(events)
    {
      success := ok;
      if ok {
        events := ArchiveCurrent(events, archiveId);
      }
    }

    /** RenameArchive */
    method RenameArchive(id: int, name: string, ok: bool) returns (success: bool)
      requires Valid()
      modifies this`archives
      ensures Valid()
      ensures success == ok
      ensures archives == if ok then WithArchiveName(old(archives), id, name) else old(archives)
    {
      success := ok;
      if ok {
        archives := WithArchiveName(archives, id, name);
      }
    }

    /** SetCompareResult: an upsert on the (archive, event, field) key. */
    method SetCompareResult(key: CompareKey, isIncorrect: bool, ok: bool) returns (success: bool)
      modifies this`compareResults
      ensures success == ok
      ensures compareResults == if ok then old(compareResults)[key := isIncorrect] else old(compareResults)
    {
      success := ok;
      if ok {
        compareResults := compareResults[key := isIncorrect];
      }
    }

    /** DeleteArchiveImages: the images of the archive's events go. */
    method DeleteArchiveImages(archiveId: int, ok: bool)
      requires Valid()
      modifies this`images
      ensures Valid()
      ensures images == if ok then ImagesOutside(old(images), ArchiveEventIds(events, archiveId)) else old(images)
    {
      if ok {
        ImagesOutsideSorted(images, ArchiveEventIds(events, archiveId));
        images := ImagesOutside(images, ArchiveEventIds(events, archiveId));
      }
    }

    /** DeleteArchiveEvents: the archive's events go. */
    method DeleteArchiveEvents(archiveId: int, ok: bool)
      requires Valid()
      modifies this`events
      ensures Valid()
      ensures events == if ok then EventsOutside(old(events), archiveId) else old(events)
    {
      if ok {
        EventsOutsideSorted(events, archiveId);
        var kept := EventsOutside(events, archiveId);
        forall i | 0 <= i < |kept|
          ensures kept[i].id < nextEventId
          ensures kept[i].archiveId.Some? ==> kept[i].archiveId.value < nextArchiveId
        {
          assert kept[i] in kept;
          var k :| 0 <= k < |events| && events[k] == kept[i];
        }
        events := kept;
      }
    }

    /** DeleteArchive: the archive row goes. */
    method DeleteArchive(archiveId: int, ok: bool)
      requires Valid()
      modifies this`archives
      ensures Valid()
      ensures archives == if ok then ArchivesOtherThan(old(archives), archiveId) else old(archives)
    {
      if ok {
        ArchivesOtherThanSorted(archives, archiveId);
        archives := ArchivesOtherThan(archives, archiveId);
      }
    }
  }

  lemma {:induction false} CountCurrentAppend(events: seq<EventRow>, e: EventRow)
    ensures CountCurrent(events + [e]) == CountCurrent(events) + (if e.archiveId.None? then 1 else 0)
    decreases |events|
  {
    if events == [] {
      assert [e][1..] == [];
    } else {
      assert (events + [e])[1..] == events[1..] + [e];
      CountCurrentAppend(events[1..], e);
    }
  }

  /** Backfilling the row just appended, whose id is above every other, changes that row only. */
  lemma UpdateLastEvent(events: seq<EventRow>, r: EventRow, name: string)
    requires forall i :: 0 <= i < |events| ==> events[i].id < r.id
    ensures WithJsonFilename(events + [r], r.id, name) == events + [r.(jsonFilename := Some(name))]
  {
    var lhs, rhs := WithJsonFilename(events + [r], r.id, name), events + [r.(jsonFilename := Some(name))];
    assert forall i :: 0 <= i < |lhs| ==> lhs[i] == rhs[i];
  }

  lemma UpdateLastImage(images: seq<ImageRow>, r: ImageRow, name: string)
    requires forall i :: 0 <= i < |images| ==> images[i].id < r.id
    ensures WithDiskFilename(images + [r], r.id, name) == images + [r.(diskFilename := Some(name))]
  {
    var lhs, rhs := WithDiskFilename(images + [r], r.id, name), images + [r.(diskFilename := Some(name))];
    assert forall i :: 0 <= i < |lhs| ==> lhs[i] == rhs[i];
  }

  /** Deleting rows keeps the remaining ids increasing. */
  lemma ImagesConsIncreasing(x: ImageRow, rest: seq<ImageRow>)
    requires forall m :: m in rest ==> x.id < m.id
    requires ImageIdsIncreasing(rest)
    ensures ImageIdsIncreasing([x] + rest)
  {
    var r := [x] + rest;
    forall i, j | 0 <= i < j < |r|
      ensures r[i].id < r[j].id
    {
      assert r[j] == rest[j - 1];
      if i > 0 {
        assert r[i] == rest[i - 1];
      } else {
        assert r[j] in rest;
      }
    }
  }

  lemma {:induction false} ImagesOutsideSorted(images: seq<ImageRow>, ids: set<nat>)
    requires ImageIdsIncreasing(images)
    ensures ImageIdsIncreasing(ImagesOutside(images, ids))
    decreases |images|
  {
    if images != [] {
      ImagesOutsideSorted(images[1..], ids);
      var rest := ImagesOutside(images[1..], ids);
      forall m | m in rest
        ensures images[0].id < m.id
      {
        var k :| 0 <= k < |images[1..]| && images[1..][k] == m;
        assert images[k + 1] == m;
      }
      if images[0].eventId !in ids {
        assert ImagesOutside(images, ids) == [images[0]] + rest;
        ImagesConsIncreasing(images[0], rest);
      }
    }
  }

  lemma EventsConsIncreasing(x: EventRow, rest: seq<EventRow>)
    requires forall m :: m in rest ==> x.id < m.id
    requires EventIdsIncreasing(rest)
    ensures EventIdsIncreasing([x] + rest)
  {
    var r := [x] + rest;
    forall i, j | 0 <= i < j < |r|
      ensures r[i].id < r[j].id
    {
      assert r[j] == rest[j - 1];
      if i > 0 {
        assert r[i] == rest[i - 1];
      } else {
        assert r[j] in rest;
      }
    }
  }

  lemma {:induction false} EventsOutsideSorted(events: seq<EventRow>, archiveId: int)
    requires EventIdsIncreasing(events)
    ensures EventIdsIncreasing(EventsOutside(events, archiveId))
    decreases |events|
  {
    if events != [] {
      EventsOutsideSorted(events[1..], archiveId);
      var rest := EventsOutside(events[1..], archiveId);
      forall m | m in rest
        ensures events[0].id < m.id
      {
        var k :| 0 <= k < |events[1..]| && events[1..][k] == m;
        assert events[k + 1] == m;
      }
      if !InArchive(events[0], archiveId) {
        assert EventsOutside(events, archiveId) == [events[0]] + rest;
        EventsConsIncreasing(events[0], rest);
      }
    }
  }

  lemma ArchivesConsIncreasing(x: ArchiveRow, rest: seq<ArchiveRow>)
    requires forall m :: m in rest ==> x.id < m.id
    requires ArchiveIdsIncreasing(rest)
    ensures ArchiveIdsIncreasing([x] + rest)
  {
    var r := [x] + rest;
    forall i, j | 0 <= i < j < |r|
      ensures r[i].id < r[j].id
    {
      assert r[j] == rest[j - 1];
      if i > 0 {
        assert r[i] == rest[i - 1];
      } else {
        assert r[j] in rest;
      }
    }
  }

  lemma {:induction false} ArchivesOtherThanSorted(archives: seq<ArchiveRow>, id: int)
    requires ArchiveIdsIncreasing(archives)
    ensures ArchiveIdsIncreasing(ArchivesOtherThan(archives, id))
    decreases |archives|
  {
    if archives != [] {
      ArchivesOtherThanSorted(archives[1..], id);
      var rest := ArchivesOtherThan(archives[1..], id);
      forall m | m in rest
        ensures archives[0].id < m.id
      {
        var k :| 0 <= k < |archives[1..]| && archives[1..][k] == m;
        assert archives[k + 1] == m;
      }
      if archives[0].id != id {
        assert ArchivesOtherThan(archives, id) == [archives[0]] + rest;
        ArchivesConsIncreasing(archives[0], rest);
      }
    }
  }

  /** The `json` and `images` directories under the data directory: file name to contents. */
  class DataDir {
    var jsonFiles: map<string, Bytes>
    var imageFiles: map<string, Bytes>

    constructor ()
      ensures jsonFiles == map[] && imageFiles == map[]
    {
      jsonFiles, imageFiles := map[], map[];
    }

    /** os.WriteFile into `json`: on success the file holds exactly the data. */
    method WriteJson(name: string, data: Bytes, ok: bool) returns (success: bool)
      modifies this`jsonFiles
      ensures success == ok
      ensures jsonFiles == if ok then old(jsonFiles)[name := data] else old(jsonFiles)
    {
      success := ok;
      if ok {
        jsonFiles := jsonFiles[name := data];
      }
    }

    /** os.WriteFile into `images`. */
    method WriteImage(name: string, data: Bytes, ok: bool) returns (success: bool)
      modifies this`imageFiles
      ensures success == ok
      ensures imageFiles == if ok then old(imageFiles)[name := data] else old(imageFiles)
    {
      success := ok;
      if ok {
        imageFiles := imageFiles[name := data];
      }
    }

    /** os.Remove in `json`, its error ignored: a missing file is no error. */
    method RemoveJson(name: string)
      modifies this`jsonFiles
      ensures jsonFiles == old(jsonFiles) - {name}
    {
      jsonFiles := jsonFiles - {name};
    }

    /** os.Remove in `images`, its error ignored. */
    method RemoveImage(name: string)
      modifies this`imageFiles
      ensures imageFiles == old(imageFiles) - {name}
    {
      imageFiles := imageFiles - {name};
    }
  }
}
