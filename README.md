# LPR event collector: a Dafny model of its server core

The server receives licence-plate-recognition events from cameras over HTTP. Each event is
JSON, either alone or in a multipart form with image files. The server stores the event and
its images in a database and in a data directory. It moves the current events into named
archives, and it lets a reviewer mark recognised fields as incorrect and export per-field
accuracy counts. This project models the handlers and helpers of `srv/server.go` that hold
that logic:

- the helpers `coalesce`, `ptrIfNotEmpty` and `sanitizeFilename`;
- the normalisation, part routing, file naming and image counting of `HandleAPI`, and its
  ingestion sequence;
- `HandleClean`, `HandleRenameArchive` and `HandleDeleteArchive`;
- `HandleCompareToggle`, and the flag and tally loops of `HandleCompareExport`.

Modules, one file each:

- `Base`: Option, Result, bytes.
- `Strings`: Go's `%d`, ASCII `strings.ToLower`, `strings.TrimSpace`, `HasPrefix`,
  `HasSuffix` and `Contains`.
- `Sanitize`: `sanitizeFilename`.
- `Normalize`: from a decoded payload to the event insert's columns.
- `Routing`: multipart parts, the JSON payload, uploads and image types.
- `Naming`: disk file names.
- `Store`: the database tables and the data directory, as classes whose methods change their
  fields.
- `Ingest`: `HandleAPI`.
- `Lifecycle`: clean, rename and delete.
- `Compare`: toggle and export.

The database statements the handlers call are `Database` methods. Each method's success is a
boolean or outcome parameter. What the SQL statement does is modelled by the statement's name
(for example, `ArchiveCurrentEvents` sets the archive of every event without one). Decoders
whose grammar is not part of the core are function parameters: `json.Unmarshal`, base64
decoding and `strconv.ParseFloat`. So are the clock and the parsing of path ids.

The code is followed where the system's written description says otherwise:

- Deleting an archive leaves its compare results in place. The code never deletes them.
- A failed image insert does not fail the request. The loop skips that image.

## Model

| member | source | states |
|---|---|---|
| Normalize.Coalesce | srv/server.go:98-106 | the result is empty iff every value is empty; otherwise it is the first non-empty value, with all earlier ones empty |
| Normalize.CoalesceFirstWins | srv/server.go:99-106 | when value k is non-empty and all before it are empty, coalesce returns value k |
| Normalize.NormalizeEvent | srv/server.go:260-329 | no optional string column of the insert is ever an empty string: ptrIfNotEmpty turns "" into NULL; the raw payload is stored unchanged |
| Normalize.CarIdPrecedence | srv/server.go:261-264 | carID beats carid beats carId; when all are empty the id is "auto-" followed by the clock's nanoseconds |
| Normalize.AutoCarIdDistinct | srv/server.go:262-264 | two different clock readings give two different generated car ids |
| Normalize.PlateAndStatePrecedence | srv/server.go:265-266 | plateUTF8 beats plateText, and carState beats carstate |
| Normalize.AbsentGroupsGiveAbsentFields | srv/server.go:283-299 | an absent vehicle_info or camera_info object leaves all of its columns NULL |
| Normalize.TopLevelFields | srv/server.go:265-329 | each top-level optional string column is set iff its (coalesced) JSON string is non-empty, and then holds that string |
| Normalize.PresentGroupFields | srv/server.go:283-298 | inside a present vehicle_info or camera_info group, each of its eight columns is set iff its JSON string is non-empty, and then holds that string |
| Normalize.GeotagPaired | srv/server.go:276-281 | latitude and longitude are both set iff the geotag object is present |
| Normalize.ConfidenceTolerant | srv/server.go:268-274 | an empty or unparsable confidence is NULL, never an error; a parsable one is stored as parsed |
| Sanitize.SanitizeFilename | srv/server.go:164-168 | the sanitized name has the same length as the input, one replacement per rune |
| Sanitize.SanitizePointwise | srv/server.go:165-168 | each safe rune stays in place; each rune outside [a-zA-Z0-9._-] becomes '_' |
| Sanitize.SanitizedIsSafe | srv/server.go:166-167 | the result holds only safe runes, so in particular no '/' |
| Sanitize.SanitizeKeepsSafeNames | srv/server.go:166 | a name made only of safe runes is returned unchanged |
| Sanitize.SanitizeIdempotent | srv/server.go:167 | sanitizing twice equals sanitizing once |
| Sanitize.SanitizeEmptyIff | srv/server.go:165 | the result is empty iff the input is |
| Strings.DecimalRoundTrip | srv/server.go:345 | the `%d` rendering of an id parses back to that id |
| Strings.DecimalInjective | srv/server.go:385 | distinct ids render to distinct decimal strings |
| Strings.ToLowerPointwise | srv/server.go:216 | lower-casing maps each ASCII capital to its small letter and keeps every other rune |
| Strings.ToLowerIdempotent | srv/server.go:364 | lower-casing twice equals lower-casing once |
| Strings.ContainsIff | srv/server.go:365-367 | `strings.Contains` holds iff the substring starts at some position |
| Strings.TrimSpaceEmptyIff | srv/server.go:1154-1155 | TrimSpace is empty iff every rune is Unicode white space |
| Strings.TrimSpaceEnds | srv/server.go:1154 | a non-empty trimmed string neither starts nor ends with white space |
| Routing.RouteJsonPart | srv/server.go:205-230 | the JSON payload is absent iff no opened part has a .json name (compared lower-case); when present, it is the content and name of such a part |
| Routing.RouteUploadsAreImageParts | srv/server.go:220-227 | the uploads are exactly the opened .jpg/.jpeg/.png parts, in order |
| Routing.ImageUploadsAppend | srv/server.go:207-228 | one more part adds at most itself to the uploads, at the end |
| Routing.ImageUploadNamesNonEmpty | srv/server.go:220-222 | every upload has a non-empty name with an image extension |
| Routing.JsonNameNonEmpty | srv/server.go:217-219 | a JSON part's name ends in ".json" once lower-cased; the name is non-empty iff a JSON part was found |
| Routing.CollectParts | srv/server.go:205-230 | the part loop yields exactly what the routing specification function gives |
| Routing.ExtractPayload | srv/server.go:196-253 | reading the request gives the payload and uploads, or the error, that Extract defines |
| Routing.ExtractedPayload | srv/server.go:240-253 | an accepted payload is non-empty; a multipart request's uploads are its image parts; a plain body has no uploads and no name |
| Routing.FormFieldsFallback | srv/server.go:232-239 | the json and data form fields are consulted only when no JSON part was read, json before data |
| Routing.EmptyJsonPartRejected | srv/server.go:233-253 | an empty .json part blocks the form-field fallback, so the request fails with "no JSON data" |
| Routing.ImageTypePrecedence | srv/server.go:362-369 | the type is "plate" iff the name holds lpup or plate; else "vehicle" iff it holds roi or vehicle; else "uploaded" |
| Routing.ImageTypeCaseInsensitive | srv/server.go:364 | the image type does not depend on the case of the name |
| Routing.EmbeddedType | srv/server.go:414-417 | an embedded image's type is never empty: it defaults to "embedded" |
| Routing.EmbeddedDefaults | srv/server.go:414-421 | a blank ImageType becomes "embedded" and a blank ImageFormat "jpg"; non-blank ones are used unchanged |
| Routing.EmbeddedExt | srv/server.go:418-421 | an embedded image's extension is never empty: it defaults to "jpg" |
| Naming.SafePlateSafe | srv/server.go:341-344 | the plate part of a name is non-empty and safe: "unknown" for an empty plate, else the sanitized plate |
| Naming.IdOfNamedAfter | srv/server.go:345-348 | the id can be read back from the leading digits of a name that starts with "<id>_" |
| Naming.DistinctIdsDistinctNames | srv/server.go:347 | names that start with different ids differ, so prefixing with the row id keeps the names apart; this is about names, not about the paths `filepath.Join` resolves them to |
| Naming.JsonDiskNameSafe | srv/server.go:339-349 | the payload file name starts with "<event id>_" and holds only safe runes |
| Naming.UploadedDiskNameSafe | srv/server.go:385-392 | an uploaded image's disk name starts with "<image id>_" and holds only safe runes |
| Naming.UploadedFallbackUnreachable | srv/server.go:386-392 | for a non-empty upload name the fallback branch is never taken |
| Naming.EmbeddedDiskNameNamedAfter | srv/server.go:438-442 | an embedded image's disk name starts with "<image id>_" |
| Naming.EmbeddedNameMayHoldSeparator | srv/server.go:414-442 | ImageType and ImageFormat are not sanitized: an input whose disk name holds '/' |
| Store.ArchiveCurrent | srv/server.go:898 | each event without an archive gets the new one; archived events keep theirs; nothing else changes |
| Store.EventsOutside | srv/server.go:1134 | the events left are exactly those outside the archive |
| Store.ImagesOutside | srv/server.go:1131 | the images left are exactly those whose event is not one of the archive's |
| Store.ArchivesOtherThan | srv/server.go:1137 | the archives left are exactly those with another id |
| Store.Database.InsertEvent | srv/server.go:306-334 | on success the row is appended under the next id and the counter advances; on failure nothing changes |
| Store.Database.UpdateEventJsonFilename | srv/server.go:354-357 | only the row with the id gets the file name |
| Store.Database.InsertImageWithId | srv/server.go:141-150 | a failed insert changes nothing; a row inserted whose id lookup fails still exists but yields no id |
| Store.Database.UpdateImageDiskFilename | srv/server.go:397-400 | only the row with the id gets the disk name |
| Store.Database.CountCurrentEvents | srv/server.go:877 | the count of events without an archive, or no value on failure |
| Store.Database.CreateArchive | srv/server.go:886-890 | on success an archive row with the name and count is appended under the next id |
| Store.Database.ArchiveCurrentEvents | srv/server.go:898 | on success every current event is moved into the archive |
| Store.Database.RenameArchive | srv/server.go:1161-1164 | on success the archive with the id gets the name |
| Store.Database.SetCompareResult | srv/server.go:616-621 | on success the (archive, event, field) entry holds the flag, replacing any earlier one |
| Store.Database.DeleteArchiveImages | srv/server.go:1131 | on success the images of the archive's events are gone |
| Store.Database.DeleteArchiveEvents | srv/server.go:1134 | on success the archive's events are gone |
| Store.Database.DeleteArchive | srv/server.go:1137 | on success the archive row is gone |
| Store.DataDir.WriteJson | srv/server.go:350-351 | a successful write stores the bytes under the name |
| Store.DataDir.WriteImage | srv/server.go:393-394 | a successful write stores the bytes under the name |
| Store.DataDir.RemoveJson | srv/server.go:1121-1122 | the file is absent afterwards, whether or not it existed |
| Store.DataDir.RemoveImage | srv/server.go:1125-1126 | the file is absent afterwards, whether or not it existed |
| Store.EventsOutsideSorted | srv/server.go:1134 | deleting an archive's events keeps the event ids increasing |
| Store.ImagesOutsideSorted | srv/server.go:1131 | deleting an archive's images keeps the image ids increasing |
| Store.ArchivesOtherThanSorted | srv/server.go:1137 | deleting an archive keeps the archive ids increasing |
| Ingest.SaveJson | srv/server.go:338-358 | the payload file is written under its id-prefixed name; only a successful write records that name on the event |
| Ingest.SaveUpload | srv/server.go:361-402 | one upload adds no row, a row without a disk name, or a row with its file written; it counts iff the insert fully succeeded |
| Ingest.SaveUploadedImages | srv/server.go:361-402 | the loop saves the rows the upload specification gives, with consecutive ids; the count is the number of full inserts |
| Ingest.SaveEmbedded | srv/server.go:405-452 | an empty or undecodable entry adds nothing; otherwise it behaves like an upload with the embedded name and type |
| Ingest.SaveEmbeddedImages | srv/server.go:405-452 | the loop saves the rows the embedded specification gives; the count is the decodable entries fully inserted |
| Ingest.SaveImages | srv/server.go:360-452 | the uploads are saved first, then the ImageArray entries, with consecutive ids |
| Ingest.SaveEvent | srv/server.go:304-358 | a failed event insert changes nothing; otherwise the normalised event is appended under the next id and its payload file written |
| Ingest.Record | srv/server.go:304-463 | a failed event insert answers 500 and changes nothing; otherwise the response carries the id, plate and image count |
| Ingest.HandleApi | srv/server.go:187-464 | a rejected request changes nothing; an accepted one records its event, payload file and images exactly as specified |
| Ingest.ApiResponseOutcome | srv/server.go:454-463 | success iff the payload was read and decoded and the event inserted; 500 iff only the insert failed; the response echoes the id and resolved plate |
| Ingest.UploadRowsFor | srv/server.go:371-401 | every upload row belongs to the event, has the next id in turn, and its disk name starts with its id |
| Ingest.UploadRowsSafe | srv/server.go:385-392 | every upload disk name holds only safe runes |
| Ingest.UploadNamesPlain | srv/server.go:385-392 | with non-empty upload names, every disk name is "<id>_<sanitized name>" |
| Ingest.FormUploadNamesPlain | srv/server.go:220-227 | uploads routed from a form always take the plain name, never the fallback |
| Ingest.EmbeddedRowsFor | srv/server.go:424-451 | every embedded row belongs to the event, has the next id in turn, and its disk name starts with its id |
| Ingest.IngestedRowsFor | srv/server.go:360-452 | all rows of a request have consecutive ids from the first free one and belong to its event |
| Ingest.UploadCountBound | srv/server.go:378-382 | the upload count is at most the rows left, which is at most the uploads |
| Ingest.EmbeddedCountBound | srv/server.go:406-435 | the embedded count is at most the rows left, which is at most the decodable entries |
| Ingest.ImageCountIgnoresWrites | srv/server.go:378-452 | the image count depends on the insert outcomes only, so a failed disk write never lowers it |
| Ingest.ImageCountBound | srv/server.go:454-463 | the reported image count is at most the uploads plus the decodable entries |
| Ingest.WithFilesHolds | srv/server.go:393-401 | the file each row names holds that row's data |
| Ingest.WithFilesElsewhere | srv/server.go:393-394 | a file that no row names keeps its content |
| Ingest.SavedImagesOfRequest | srv/server.go:360-452 | after a request, old rows are untouched; each new row has the right event and next id, and its named file holds its data; other files are unchanged |
| Lifecycle.Clean | srv/server.go:873-907 | the outcome is the one CleanResult defines; the archive row is created with the counted number; events move only when every step succeeds |
| Lifecycle.ArchiveCurrentLeavesNone | srv/server.go:898 | after the move no event is current |
| Lifecycle.ArchiveCurrentGathers | srv/server.go:898 | the archive gains exactly the events that were current |
| Lifecycle.ArchiveCurrentKeepsOthers | srv/server.go:898 | every other archive keeps its events |
| Lifecycle.UnissuedArchiveEmpty | srv/server.go:886-890 | no event belongs to an archive id not yet issued |
| Lifecycle.CleanArchivesEverything | srv/server.go:877-903 | after a successful clean no event is current, and the new archive holds exactly its recorded event count, which is positive |
| Lifecycle.CleanTwiceArchivesNothing | srv/server.go:877-881 | a clean right after a successful one creates no archive |
| Lifecycle.Rename | srv/server.go:1146-1178 | invalid id 400, blank name 400, failed update 500; otherwise the trimmed name is stored and the client is sent to the referer, or "/" |
| Lifecycle.RenameRejectsBlank | srv/server.go:1154-1158 | "name is required" iff the submitted name is all white space |
| Lifecycle.RenamedNameIsTrimmed | srv/server.go:1154 | the stored name is non-empty, has no white space at either end, and occurs in the submitted value |
| Lifecycle.RenameTrimIdempotent | srv/server.go:1154 | submitting a stored name again stores the same name |
| Lifecycle.RenameLastWins | srv/server.go:1161-1164 | of two renames the later name wins |
| Lifecycle.ListedAppend | srv/server.go:1119-1128 | one more listed row adds at most its own JSON name and disk name to the names to remove |
| Lifecycle.RemoveArchivedFiles | srv/server.go:1118-1128 | every non-empty listed JSON and disk name is removed, and no other file |
| Lifecycle.DeleteArchive | srv/server.go:1102-1143 | invalid id: 400, nothing changes; otherwise the listed files, then the images, events and archive row are removed, each only if its statement succeeds; compare results stay |
| Lifecycle.DeleteKeepsOthers | srv/server.go:1134-1136 | deleting an archive's events keeps the current events and every other archive's events, and leaves none in that archive |
| Compare.Toggle | srv/server.go:591-632 | bad id or body 400; a field outside plate/maker/model/color 400; failed upsert 500; otherwise the flag is stored under (archive, event, field) |
| Compare.Flagged | srv/server.go:658-671 | an event is flagged for a field iff its saved result for that archive and field says incorrect |
| Compare.ToggleFlags | srv/server.go:616-621 | a toggle adds or removes exactly one event in exactly one field's flag set |
| Compare.LastToggleWins | srv/server.go:616-621 | the last toggle of an event's field decides whether the export flags it |
| Compare.LoadFlagsStep | srv/server.go:659-671 | one more result flags its event in its own field's set iff it says incorrect |
| Compare.LoadFlags | srv/server.go:651-672 | visiting the results in any order gives each field the set of events flagged for it |
| Compare.Tally | srv/server.go:722-820 | for each field, incorrect is the number of events whose id is flagged, and correct is the rest |
| Compare.CountFlaggedDistinct | srv/server.go:833 | with distinct event ids, the incorrect count is the number of the events' ids that are flagged |
| Compare.ArchivedEvents | srv/server.go:649 | the listed events are exactly those of the archive |
| Compare.ArchivedEventsSorted | srv/server.go:649 | the listed events keep increasing ids |
| Compare.ArchivedEventsCount | srv/server.go:833 | the total is the archive's number of events |
| Compare.FindArchive | srv/server.go:643-647 | the archive found has the id; when none is found, no archive has it |
| Compare.ExportFilenameSafe | srv/server.go:862-868 | the attachment name holds only safe runes, so neither '"' nor '/' |
| Compare.ExportNotFoundIff | srv/server.go:643-647 | 404 is answered exactly when the id parses and the archive lookup fails or finds no archive |
| Compare.Export | srv/server.go:634-871 | bad id 400, unknown archive or failed lookup 404, failed write 500; otherwise the archive's file name and the tallies over its events |
| Compare.ExportCounts | srv/server.go:826-848 | each field's correct plus incorrect is the archive's event count; incorrect is the number of its events last toggled incorrect for that field |

## Left out

- JSON decoding, base64 decoding and `strconv.ParseFloat` are function parameters. Their
  grammars are not modelled.
- `strconv.ParseInt` of path ids is an `Option<int>` parameter.
- The clock is a parameter: `time.Now().UnixNano()` for generated car ids, and the formatted
  time for an archive's name. The `created_at` columns are not modelled.
- `Strings.ToLower` maps only ASCII capitals. Go's `strings.ToLower` also maps non-ASCII
  letters, which can change which names end in ".json" or contain "plate".
- Strings are rune sequences. Invalid UTF-8 in part names is not modelled.
- The multipart form is a sequence of parts. Go iterates a map, so part order is unspecified.
  The lemmas only speak of "some .json part", but `Route` keeps the last one in sequence order.
- `Routing.Route`'s properties are stated in `Routing.RouteJsonPart`, not as ensures on
  `Route`. This keeps the function's own proof small.
- The multipart size limit (32 MB), body read failures and part open failures are outcome
  parameters of the request. Limits are not modelled.
- Geotag coordinates and confidence values are `real`. float64 rounding is not modelled.
- `toInt64`, the spreadsheet cells and styles, image embedding, the "Accuracy %" float
  formatting, the HTTP headers and template rendering are not modelled. Only the counts and
  the attachment name are.
- `Compare.Tally`: the percentage `correct / total * 100` is floating point and is left out.
- Logging (`slog`) is left out. Errors that are only logged are modelled as outcome
  parameters:
  - failed `UpdateEventJsonFilename` and `UpdateImageDiskFilename` calls are ignored by the
    code. The model treats them as succeeding whenever the write succeeded.
  - `os.Remove` errors are ignored, and the file is treated as removed.
- SQL statements are modelled by their names: what `ArchiveCurrentEvents`,
  `DeleteArchiveImages`, `DeleteArchiveEvents`, `DeleteArchive` and `SetCompareResult`
  (an upsert) do is an assumption about the queries, whose text is not part of this model.
- `GetArchivedEventFiles` is a parameter (`None` when it fails). Its rows are not derived from
  the tables.
- `GetArchivedEvents` and `GetCompareResults` are derived from the tables, in table order and
  in no particular order respectively.
- Concurrency is not modelled. Two requests could interleave, for example between
  `HandleClean`'s count and its move. So could `last_insert_rowid` on a pooled connection:
  the model gives the inserted row's id.
- `Store.DataDir`: the image and JSON directories are maps keyed by the disk name as built,
  not by the path `filepath.Join` resolves it to. An embedded image's ImageType and
  ImageFormat are not sanitized (`Naming.EmbeddedNameMayHoldSeparator`), so in the program a
  name holding "../" can reach another row's file or a file under json/. The model does not
  capture that aliasing, in writes or in `Lifecycle.DeleteArchive`'s removals.
- `Ingest.WithFilesHolds` holds of the names only: two embedded names that resolve to the
  same path share one file in the program, and the later write wins.
- `Ingest.WithFilesElsewhere` holds of the names only: an embedded name with "../" can
  overwrite a file no row names, a payload file under json/ included.
- `Ingest.SavedImagesOfRequest`: "its named file holds its data; other files are unchanged"
  holds of the names only, for the same reason. Uploaded names are always safe
  (`Ingest.UploadRowsSafe`), so the gap concerns embedded images.
- Integer widths are not modelled: ids and counts are unbounded naturals, not int64.
- The route table, static files, dashboards and the JSON/image download handlers are not
  part of the core, so they are left out.
