/**
 * The compare view of an archive: HandleCompareToggle records that a field of an archived
 * event was recognised incorrectly (or correctly again), and HandleCompareExport flags the
 * recorded fields and tallies, per field, how many of the archive's events are correct and
 * how many incorrect. The spreadsheet itself is not modelled; its file name is.
 */
module Compare {
  import opened Base
  import opened Sanitize
  import opened Store

  /** The fields a reviewer can flag. */
  predicate IsCompareField(field: string)
  {
    field == "plate" || field == "maker" || field == "model" || field == "color"
  }

  lemma CompareFieldsDistinct()
    ensures "plate" != "maker" && "plate" != "model" && "plate" != "color"
    ensures "maker" != "model" && "maker" != "color" && "model" != "color"
  {
    assert "plate"[0] != "maker"[0] && "plate"[0] != "model"[0] && "plate"[0] != "color"[0];
    assert "maker"[0] != "color"[0] && "model"[0] != "color"[0] && "maker"[1] != "model"[1];
  }

  /** The decoded JSON body of a toggle: event_id, field and incorrect. */
  datatype ToggleRequest = ToggleRequest(eventId: int, field: string, incorrect: bool)

  datatype ToggleOutcome =
    | ToggleInvalidId     // 400 "invalid archive id"
    | InvalidJson         // 400 "invalid json"
    | InvalidField        // 400 "invalid field"
    | DatabaseError       // 500 "database error"
    | Toggled             // {"ok":true}

  /** HandleCompareToggle's answer from the parsed id, the decoded body and the outcome of the upsert. */
  function ToggleResult(archiveId: Option<int>, req: Option<ToggleRequest>, ok: bool): ToggleOutcome
  {
    if archiveId.None? then ToggleInvalidId
    else if req.None? then InvalidJson
    else if !IsCompareField(req.value.field) then InvalidField
    else if !ok then DatabaseError
    else Toggled
  }

  /** HandleCompareToggle: the field is checked against the whitelist map, then the result is upserted. */
  method Toggle(db: Database, archiveId: Option<int>, req: Option<ToggleRequest>, ok: bool) returns (r: ToggleOutcome)
    modifies db`compareResults
    ensures r == ToggleResult(archiveId, req, ok)
    ensures db.compareResults ==
      if r.Toggled? then old(db.compareResults)[CompareKey(archiveId.value, req.value.eventId, req.value.field) := req.value.incorrect]
      else old(db.compareResults)
  {
    if archiveId.None? {
      return ToggleInvalidId;
    }
    if req.None? {
      return InvalidJson;
    }
    var validFields := map["plate" := true, "maker" := true, "model" := true, "color" := true];
    if !(req.value.field in validFields && validFields[req.value.field]) {
      return InvalidField;
    }
    var key := CompareKey(archiveId.value, req.value.eventId, req.value.field);
    var saved := db.SetCompareResult(key, req.value.incorrect, ok);
    if !saved {
      return DatabaseError;
    }
    return Toggled;
  }

  /** The events of the archive whose field is recorded as incorrect. */
  function Flagged(results: map<CompareKey, bool>, archiveId: int, field: string): (r: set<int>)
    ensures forall e :: e in r <==>
      CompareKey(archiveId, e, field) in results && results[CompareKey(archiveId, e, field)]
  {
    set k | k in results && k.archiveId == archiveId && k.field == field && results[k] :: k.eventId
  }

  /** A toggle flags or unflags one event of one field of one archive, and nothing else. */
  lemma ToggleFlags(results: map<CompareKey, bool>, key: CompareKey, incorrect: bool, archiveId: int, field: string)
    ensures Flagged(results[key := incorrect], archiveId, field) ==
      if key.archiveId == archiveId && key.field == field then
        (if incorrect then Flagged(results, archiveId, field) + {key.eventId}
         else Flagged(results, archiveId, field) - {key.eventId})
      else Flagged(results, archiveId, field)
  {
    var after := Flagged(results[key := incorrect], archiveId, field);
    var before := Flagged(results, archiveId, field);
    forall e
      ensures e in after <==>
        if key.archiveId == archiveId && key.field == field then
          (if incorrect then e in before || e == key.eventId else e in before && e != key.eventId)
        else e in before
    {
      assert CompareKey(archiveId, e, field) == key <==>
        key.archiveId == archiveId && key.field == field && e == key.eventId;
    }
  }

  /** The last toggle of an event's field decides whether the export flags it. */
  lemma LastToggleWins(results: map<CompareKey, bool>, archiveId: int, req: ToggleRequest)
    ensures var key := CompareKey(archiveId, req.eventId, req.field);
      req.eventId in Flagged(results[key := req.incorrect], archiveId, req.field) <==> req.incorrect
  {
  }

  /** The four flag sets built by the export, one per field. */
  datatype Flags = Flags(plate: set<int>, maker: set<int>, model: set<int>, color: set<int>)

  /** The saved results of the archive. */
  function ArchiveKeys(results: map<CompareKey, bool>, archiveId: int): set<CompareKey>
  {
    set k | k in results && k.archiveId == archiveId
  }

  /** The events among the given keys whose field is recorded as incorrect. */
  function FlaggedAmong(results: map<CompareKey, bool>, keys: set<CompareKey>, field: string): set<int>
  {
    set k | k in keys && k in results && k.field == field && results[k] :: k.eventId
  }

  lemma FlaggedAmongAdd(results: map<CompareKey, bool>, keys: set<CompareKey>, k: CompareKey, field: string)
    requires k in results
    ensures FlaggedAmong(results, keys + {k}, field) ==
      FlaggedAmong(results, keys, field) + (if k.field == field && results[k] then {k.eventId} else {})
  {
  }

  lemma FlaggedAmongArchive(results: map<CompareKey, bool>, archiveId: int, field: string)
    ensures FlaggedAmong(results, ArchiveKeys(results, archiveId), field) == Flagged(results, archiveId, field)
  {
    var lhs := FlaggedAmong(results, ArchiveKeys(results, archiveId), field);
    forall e | e in Flagged(results, archiveId, field)
      ensures e in lhs
    {
      assert CompareKey(archiveId, e, field) in ArchiveKeys(results, archiveId);
    }
  }

  /** Visiting one more saved result adds its event to the set of its field when it is marked incorrect. */
  lemma LoadFlagsStep(results: map<CompareKey, bool>, done: set<CompareKey>, k: CompareKey, before: Flags, after: Flags)
    requires k in results
    requires before.plate == FlaggedAmong(results, done, "plate") && before.maker == FlaggedAmong(results, done, "maker")
    requires before.model == FlaggedAmong(results, done, "model") && before.color == FlaggedAmong(results, done, "color")
    requires after ==
      if !results[k] then before
      else if k.field == "plate" then before.(plate := before.plate + {k.eventId})
      else if k.field == "maker" then before.(maker := before.maker + {k.eventId})
      else if k.field == "model" then before.(model := before.model + {k.eventId})
      else if k.field == "color" then before.(color := before.color + {k.eventId})
      else before
    ensures after.plate == FlaggedAmong(results, done + {k}, "plate") && after.maker == FlaggedAmong(results, done + {k}, "maker")
    ensures after.model == FlaggedAmong(results, done + {k}, "model") && after.color == FlaggedAmong(results, done + {k}, "color")
  {
    CompareFieldsDistinct();
    FlaggedAmongAdd(results, done, k, "plate");
    FlaggedAmongAdd(results, done, k, "maker");
    FlaggedAmongAdd(results, done, k, "model");
    FlaggedAmongAdd(results, done, k, "color");
  }

  /**
   * The first loop of HandleCompareExport: every saved result of the archive that is marked
   * incorrect flags its event in the set of its field; a field outside the four is ignored.
   * The results are visited in no particular order.
   */
  method LoadFlags(results: map<CompareKey, bool>, archiveId: int) returns (flags: Flags)
    ensures flags == Flags(Flagged(results, archiveId, "plate"), Flagged(results, archiveId, "maker"),
                           Flagged(results, archiveId, "model"), Flagged(results, archiveId, "color"))
  {
    var all := ArchiveKeys(results, archiveId);
    var todo := all;
    ghost var done: set<CompareKey> := {};
    flags := Flags({}, {}, {}, {});
    while todo != {}
      invariant done + todo == all && todo <= results.Keys
      invariant flags.plate == FlaggedAmong(results, done, "plate")
      invariant flags.maker == FlaggedAmong(results, done, "maker")
      invariant flags.model == FlaggedAmong(results, done, "model")
      invariant flags.color == FlaggedAmong(results, done, "color")
      decreases |todo|
    {
      var k :| k in todo;
      ghost var before := flags;
      if results[k] {
        if k.field == "plate" {
          flags := flags.(plate := flags.plate + {k.eventId});
        } else if k.field == "maker" {
          flags := flags.(maker := flags.maker + {k.eventId});
        } else if k.field == "model" {
          flags := flags.(model := flags.model + {k.eventId});
        } else if k.field == "color" {
          flags := flags.(color := flags.color + {k.eventId});
        }
      }
      LoadFlagsStep(results, done, k, before, flags);
      todo := todo - {k};
      done := done + {k};
    }
    assert done == all;
    FlaggedAmongArchive(results, archiveId, "plate");
    FlaggedAmongArchive(results, archiveId, "maker");
    FlaggedAmongArchive(results, archiveId, "model");
    FlaggedAmongArchive(results, archiveId, "color");
  }

  /** How many of the events carry a flagged id. */
  function CountFlagged(events: seq<EventRow>, flagged: set<int>): (n: nat)
    ensures n <= |events|
  {
    if events == [] then 0
    else CountFlagged(events[..|events| - 1], flagged) + (if events[|events| - 1].id in flagged then 1 else 0)
  }

  /** One row of the Statistics sheet: correct and incorrect counts of a field. */
  datatype FieldTally = FieldTally(correct: nat, incorrect: nat)

  /** The Statistics sheet: the number of events and the tally of each field. */
  datatype Stats = Stats(total: nat, plate: FieldTally, maker: FieldTally, model: FieldTally, color: FieldTally)

  function TallyOf(events: seq<EventRow>, flagged: set<int>): FieldTally
  {
    FieldTally(|events| - CountFlagged(events, flagged), CountFlagged(events, flagged))
  }

  /**
   * The second loop of HandleCompareExport: each event counts as incorrect for a field when its
   * id is flagged for that field, and as correct otherwise.
   */
  method Tally(events: seq<EventRow>, flags: Flags) returns (stats: Stats)
    ensures stats == Stats(|events|, TallyOf(events, flags.plate), TallyOf(events, flags.maker),
                           TallyOf(events, flags.model), TallyOf(events, flags.color))
  {
    var plateCorrect, plateIncorrect := 0, 0;
    var makerCorrect, makerIncorrect := 0, 0;
    var modelCorrect, modelIncorrect := 0, 0;
    var colorCorrect, colorIncorrect := 0, 0;
    for i := 0 to |events|
      invariant plateIncorrect == CountFlagged(events[..i], flags.plate) && plateCorrect == i - plateIncorrect
      invariant makerIncorrect == CountFlagged(events[..i], flags.maker) && makerCorrect == i - makerIncorrect
      invariant modelIncorrect == CountFlagged(events[..i], flags.model) && modelCorrect == i - modelIncorrect
      invariant colorIncorrect == CountFlagged(events[..i], flags.color) && colorCorrect == i - colorIncorrect
    {
      var e := events[i];
      assert events[..i + 1][..i] == events[..i];
      if e.id in flags.plate {
        plateIncorrect := plateIncorrect + 1;
      } else {
        plateCorrect := plateCorrect + 1;
      }
      if e.id in flags.maker {
        makerIncorrect := makerIncorrect + 1;
      } else {
        makerCorrect := makerCorrect + 1;
      }
      if e.id in flags.model {
        modelIncorrect := modelIncorrect + 1;
      } else {
        modelCorrect := modelCorrect + 1;
      }
      if e.id in flags.color {
        colorIncorrect := colorIncorrect + 1;
      } else {
        colorCorrect := colorCorrect + 1;
      }
    }
    assert events[..|events|] == events;
    stats := Stats(|events|, FieldTally(plateCorrect, plateIncorrect), FieldTally(makerCorrect, makerIncorrect),
                   FieldTally(modelCorrect, modelIncorrect), FieldTally(colorCorrect, colorIncorrect));
  }

  /** The ids of the events. */
  function IdsOf(events: seq<EventRow>): set<nat>
  {
    set e | e in events :: e.id
  }

  lemma IdsOfAppend(init: seq<EventRow>, last: EventRow)
    ensures IdsOf(init + [last]) == IdsOf(init) + {last.id}
  {
    assert forall e :: e in init + [last] <==> e in init || e == last;
  }

  /** Adding an id that was not there adds one to the flagged count exactly when it is flagged. */
  lemma FlaggedCardAdd(ids: set<nat>, x: nat, flagged: set<int>)
    requires x !in ids
    ensures |(ids + {x}) * flagged| == |ids * flagged| + (if x in flagged then 1 else 0)
  {
    var before := ids * flagged;
    if x in flagged {
      assert (ids + {x}) * flagged == before + {x};
    } else {
      assert (ids + {x}) * flagged == before;
    }
  }

  /** In a table with increasing ids, the last id is new and the rest still increases. */
  lemma LastIdFresh(events: seq<EventRow>)
    requires events != [] && EventIdsIncreasing(events)
    ensures EventIdsIncreasing(events[..|events| - 1])
    ensures events == events[..|events| - 1] + [events[|events| - 1]]
    ensures events[|events| - 1].id !in IdsOf(events[..|events| - 1])
  {
    var init, last := events[..|events| - 1], events[|events| - 1];
    forall e | e in init
      ensures e.id < last.id
    {
      var k :| 0 <= k < |init| && init[k] == e;
    }
  }

  /** With distinct ids, the incorrect count is the number of the events' ids that are flagged. */
  lemma {:induction false} CountFlaggedDistinct(events: seq<EventRow>, flagged: set<int>)
    requires EventIdsIncreasing(events)
    ensures CountFlagged(events, flagged) == |IdsOf(events) * flagged|
    decreases |events|
  {
    if events != [] {
      var init, last := events[..|events| - 1], events[|events| - 1];
      LastIdFresh(events);
      CountFlaggedDistinct(init, flagged);
      IdsOfAppend(init, last);
      FlaggedCardAdd(IdsOf(init), last.id, flagged);
    }
  }

  /** The archive's events in table order (GetArchivedEvents). */
  function ArchivedEvents(events: seq<EventRow>, archiveId: int): (r: seq<EventRow>)
    ensures forall e :: e in r <==> e in events && InArchive(e, archiveId)
  {
    if events == [] then []
    else (if InArchive(events[0], archiveId) then [events[0]] else []) + ArchivedEvents(events[1..], archiveId)
  }

  lemma {:induction false} ArchivedEventsSorted(events: seq<EventRow>, archiveId: int)
    requires EventIdsIncreasing(events)
    ensures EventIdsIncreasing(ArchivedEvents(events, archiveId))
    decreases |events|
  {
    if events != [] {
      ArchivedEventsSorted(events[1..], archiveId);
      var rest := ArchivedEvents(events[1..], archiveId);
      forall m | m in rest
        ensures events[0].id < m.id
      {
        var k :| 0 <= k < |events[1..]| && events[1..][k] == m;
        assert events[k + 1] == m;
      }
      if InArchive(events[0], archiveId) {
        assert ArchivedEvents(events, archiveId) == [events[0]] + rest;
        EventsConsIncreasing(events[0], rest);
      }
    }
  }

  /** GetArchiveByID: the archive row with the id, if there is one. */
  function FindArchive(archives: seq<ArchiveRow>, id: int): (r: Option<ArchiveRow>)
    ensures r.Some? ==> r.value in archives && r.value.id == id
    ensures r.None? ==> forall a :: a in archives ==> a.id != id
  {
    if archives == [] then None
    else if archives[0].id == id then Some(archives[0])
    else FindArchive(archives[1..], id)
  }

  /** The attachment name: compare_<archive name, sanitized, or "export">.xlsx. */
  function ExportFilename(name: Option<string>): string
  {
    "compare_" + (if name.Some? then SanitizeFilename(name.value) else "export") + ".xlsx"
  }

  /** The attachment name is made of safe runes only, so it can neither close the quoted header value nor name a directory. */
  lemma ExportFilenameSafe(name: Option<string>)
    ensures AllSafe(ExportFilename(name))
    ensures forall i :: 0 <= i < |ExportFilename(name)| ==> ExportFilename(name)[i] != '"' && ExportFilename(name)[i] != '/'
  {
    if name.Some? {
      SanitizedIsSafe(name.value);
    }
    var n := ExportFilename(name);
    assert AllSafe("compare_") && AllSafe("export") && AllSafe(".xlsx");
    var mid := if name.Some? then SanitizeFilename(name.value) else "export";
    assert n == "compare_" + mid + ".xlsx";
    forall i | 0 <= i < |n|
      ensures IsSafeChar(n[i])
    {
      if i < 8 {
        assert n[i] == "compare_"[i];
      } else if i < 8 + |mid| {
        assert n[i] == mid[i - 8];
      } else {
        assert n[i] == ".xlsx"[i - 8 - |mid|];
      }
    }
  }

  datatype ExportOutcome =
    | ExportInvalidId                          // 400 "invalid archive id"
    | ArchiveNotFound                          // 404 "archive not found"
    | WriteFailed                              // 500 "failed to generate xlsx"
    | Exported(filename: string, stats: Stats) // the workbook, sent as an attachment

  /**
   * HandleCompareExport's answer. Any failure of the archive lookup answers 404, like a
   * missing archive. A failed listing of the archive's events or of its saved results is
   * ignored and reads as an empty list.
   */
  function ExportResult(events: seq<EventRow>, archives: seq<ArchiveRow>, results: map<CompareKey, bool>,
                        archiveId: Option<int>, archiveOk: bool, eventsOk: bool, resultsOk: bool, writeOk: bool)
    : ExportOutcome
  {
    if archiveId.None? then ExportInvalidId
    else
      var archive := FindArchive(archives, archiveId.value);
      if archive.None? || !archiveOk then ArchiveNotFound
      else if !writeOk then WriteFailed
      else
        var listed := if eventsOk then ArchivedEvents(events, archiveId.value) else [];
        var saved := if resultsOk then results else map[];
        Exported(ExportFilename(archive.value.name),
                 Stats(|listed|, TallyOf(listed, Flagged(saved, archiveId.value, "plate")),
                       TallyOf(listed, Flagged(saved, archiveId.value, "maker")),
                       TallyOf(listed, Flagged(saved, archiveId.value, "model")),
                       TallyOf(listed, Flagged(saved, archiveId.value, "color"))))
  }

  method Export(db: Database, archiveId: Option<int>, archiveOk: bool, eventsOk: bool, resultsOk: bool, writeOk: bool)
    returns (r: ExportOutcome)
    ensures r == ExportResult(db.events, db.archives, db.compareResults, archiveId, archiveOk, eventsOk, resultsOk, writeOk)
  {
    if archiveId.None? {
      return ExportInvalidId;
    }
    var archive := FindArchive(db.archives, archiveId.value);
    if archive.None? || !archiveOk {
      return ArchiveNotFound;
    }
    var events := if eventsOk then ArchivedEvents(db.events, archiveId.value) else [];
    var results := if resultsOk then db.compareResults else map[];
    var flags := LoadFlags(results, archiveId.value);
    var stats := Tally(events, flags);
    if !writeOk {
      return WriteFailed;
    }
    return Exported(ExportFilename(archive.value.name), stats);
  }

  /** 404 is answered exactly when the id parses but the lookup finds no archive or fails. */
  lemma ExportNotFoundIff(events: seq<EventRow>, archives: seq<ArchiveRow>, results: map<CompareKey, bool>,
                          archiveId: Option<int>, archiveOk: bool, eventsOk: bool, resultsOk: bool, writeOk: bool)
    ensures ExportResult(events, archives, results, archiveId, archiveOk, eventsOk, resultsOk, writeOk).ArchiveNotFound?
      <==> archiveId.Some? && (!archiveOk || forall a :: a in archives ==> a.id != archiveId.value)
  {
    if archiveId.Some? && FindArchive(archives, archiveId.value).Some? {
      assert FindArchive(archives, archiveId.value).value in archives;
    }
  }

  /**
   * In an exported workbook every field's correct and incorrect counts add up to the number
   * of the archive's events, and the incorrect count is the number of the archive's events
   * whose field was last toggled to incorrect.
   */
  lemma ExportCounts(events: seq<EventRow>, nextEventId: nat, nextArchiveId: nat, archives: seq<ArchiveRow>,
                     results: map<CompareKey, bool>, archiveId: int, writeOk: bool, field: string)
    requires EventsValid(events, nextEventId, nextArchiveId)
    requires ExportResult(events, archives, results, Some(archiveId), true, true, true, writeOk).Exported?
    requires IsCompareField(field)
    ensures var stats := ExportResult(events, archives, results, Some(archiveId), true, true, true, writeOk).stats;
      var tally := if field == "plate" then stats.plate else if field == "maker" then stats.maker
                   else if field == "model" then stats.model else stats.color;
      && stats.total == CountInArchive(events, archiveId)
      && tally.correct + tally.incorrect == stats.total
      && tally.incorrect == |ArchiveEventIds(events, archiveId) * Flagged(results, archiveId, field)|
  {
    var listed := ArchivedEvents(events, archiveId);
    ArchivedEventsSorted(events, archiveId);
    CountFlaggedDistinct(listed, Flagged(results, archiveId, field));
    ArchivedEventsCount(events, archiveId);
    assert IdsOf(listed) == ArchiveEventIds(events, archiveId);
  }

  lemma {:induction false} ArchivedEventsCount(events: seq<EventRow>, archiveId: int)
    ensures |ArchivedEvents(events, archiveId)| == CountInArchive(events, archiveId)
    decreases |events|
  {
    if events != [] {
      ArchivedEventsCount(events[1..], archiveId);
    }
  }
}
