/**
 * HandleAPI's ingestion sequence: insert the event and take its id, write the payload
 * file named after that id, then for every image insert its row, take its id, write the
 * file named after it and backfill the name. Only the event insert can fail the request;
 * every other failure lowers what is stored.
 */
module Ingest {
  import opened Base
  import opened Strings
  import opened Sanitize
  import opened Normalize
  import opened Routing
  import opened Naming
  import opened Store

  /**
   * The outcomes of the statements HandleAPI runs against the database and the disk.
   * Image outcomes are indexed by the position of the image in its loop.
   */
  datatype IoOracle = IoOracle(
    eventInsertOk: bool,
    jsonWriteOk: bool,
    uploadInsert: nat -> InsertOutcome,
    uploadWrite: nat -> bool,
    embeddedInsert: nat -> InsertOutcome,
    embeddedWrite: nat -> bool)

  datatype ApiError = RequestRejected(reason: ExtractError) | InvalidJson | DatabaseError

  /** The HTTP status of each error response. */
  function StatusCode(e: ApiError): int
  {
    if e == DatabaseError then 500 else 400
  }

  datatype ApiResult = ApiFailure(error: ApiError) | ApiSuccess(id: nat, plate: string, images: nat)

  /** A payload that was read and decoded. */
  datatype Prepared = Prepared(payload: Extracted, event: IncomingEvent)

  /** Everything HandleAPI does before touching the database. */
  function Prepare(req: Request, decode: Bytes -> Option<IncomingEvent>): Result<Prepared, ApiError>
  {
    match Extract(req)
    case Failure(e) => Failure(RequestRejected(e))
    case Success(x) =>
      match decode(x.raw)
      case None => Failure(InvalidJson)
      case Some(ev) => Success(Prepared(x, ev))
  }

  /** The row (if any) that the uploaded-image loop leaves for one image. */
  function UploadRow(u: Upload, index: nat, eventId: nat, plate: string, id: nat, outcome: InsertOutcome, written: bool)
    : seq<ImageRow>
  {
    match outcome
    case RowFailed => []
    case IdLookupFailed => [ImageRow(id, eventId, ImageTypeFor(u.filename), u.filename, u.data, None)]
    case Inserted =>
      var disk := if written then Some(UploadedDiskName(id, u.filename, plate, index)) else None;
      [ImageRow(id, eventId, ImageTypeFor(u.filename), u.filename, u.data, disk)]
  }

  /** The rows the uploaded-image loop adds for the first k images, ids from firstId on. */
  function UploadRows(ups: seq<Upload>, k: nat, eventId: nat, plate: string, firstId: nat, io: IoOracle)
    : (rows: seq<ImageRow>)
    requires k <= |ups|
    ensures |rows| <= k
  {
    if k == 0 then []
    else
      var prev := UploadRows(ups, k - 1, eventId, plate, firstId, io);
      prev + UploadRow(ups[k - 1], k - 1, eventId, plate, firstId + |prev|, io.uploadInsert(k - 1), io.uploadWrite(k - 1))
  }

  /** One step of the definition: the first k images' rows are the first k - 1 images' rows and image k - 1's row. */
  lemma UploadRowsUnfold(ups: seq<Upload>, k: nat, eventId: nat, plate: string, firstId: nat, io: IoOracle)
    requires 0 < k <= |ups|
    ensures UploadRows(ups, k, eventId, plate, firstId, io)
      == UploadRows(ups, k - 1, eventId, plate, firstId, io)
         + UploadRow(ups[k - 1], k - 1, eventId, plate, firstId + |UploadRows(ups, k - 1, eventId, plate, firstId, io)|,
                     io.uploadInsert(k - 1), io.uploadWrite(k - 1))
  {
  }

  /** Image i's row, given the id the table hands out after the first i images' rows. */
  lemma UploadRowsNext(ups: seq<Upload>, i: nat, eventId: nat, plate: string, firstId: nat, io: IoOracle, nextId: nat)
    requires i < |ups|
    requires nextId == firstId + |UploadRows(ups, i, eventId, plate, firstId, io)|
    ensures UploadRows(ups, i + 1, eventId, plate, firstId, io)
      == UploadRows(ups, i, eventId, plate, firstId, io)
         + UploadRow(ups[i], i, eventId, plate, nextId, io.uploadInsert(i), io.uploadWrite(i))
  {
    UploadRowsUnfold(ups, i + 1, eventId, plate, firstId, io);
  }

  /** The images among the first k whose insert succeeded. */
  function UploadCount(io: IoOracle, k: nat): (n: nat)
    ensures n <= k
  {
    if k == 0 then 0 else UploadCount(io, k - 1) + (if io.uploadInsert(k - 1) == Inserted then 1 else 0)
  }

  lemma UploadCountNext(io: IoOracle, i: nat)
    ensures UploadCount(io, i + 1) == UploadCount(io, i) + (if io.uploadInsert(i) == Inserted then 1 else 0)
  {
  }

  /** An ImageArray entry is tried only when its BinaryImage is non-empty and decodes. */
  predicate Decodable(entry: EmbeddedImage, b64: string -> Option<Bytes>)
  {
    entry.binaryImage != "" && b64(entry.binaryImage).Some?
  }

  /** The row (if any) that the embedded-image loop leaves for one entry. */
  function EmbeddedRow(entry: EmbeddedImage, index: nat, eventId: nat, plate: string, id: nat,
                       b64: string -> Option<Bytes>, outcome: InsertOutcome, written: bool): seq<ImageRow>
  {
    if !Decodable(entry, b64) then []
    else
      var t, ext := EmbeddedType(entry.imageType), EmbeddedExt(entry.imageFormat);
      var data := b64(entry.binaryImage).value;
      match outcome
      case RowFailed => []
      case IdLookupFailed => [ImageRow(id, eventId, t, EmbeddedFilename(t, ext, index), data, None)]
      case Inserted =>
        var disk := if written then Some(EmbeddedDiskName(id, plate, t, ext)) else None;
        [ImageRow(id, eventId, t, EmbeddedFilename(t, ext, index), data, disk)]
  }

  /** One step of the definition: the first k entries' rows are the first k - 1 entries' rows and entry k - 1's row. */
  lemma EmbeddedRowsUnfold(entries: seq<EmbeddedImage>, k: nat, eventId: nat, plate: string, firstId: nat,
                           b64: string -> Option<Bytes>, io: IoOracle)
    requires 0 < k <= |entries|
    ensures EmbeddedRows(entries, k, eventId, plate, firstId, b64, io)
      == EmbeddedRows(entries, k - 1, eventId, plate, firstId, b64, io)
         + EmbeddedRow(entries[k - 1], k - 1, eventId, plate,
                       firstId + |EmbeddedRows(entries, k - 1, eventId, plate, firstId, b64, io)|, b64,
                       io.embeddedInsert(k - 1), io.embeddedWrite(k - 1))
  {
  }

  /** Entry i's row, given the id the table hands out after the first i entries' rows. */
  lemma EmbeddedRowsNext(entries: seq<EmbeddedImage>, i: nat, eventId: nat, plate: string, firstId: nat,
                         b64: string -> Option<Bytes>, io: IoOracle, nextId: nat)
    requires i < |entries|
    requires nextId == firstId + |EmbeddedRows(entries, i, eventId, plate, firstId, b64, io)|
    ensures EmbeddedRows(entries, i + 1, eventId, plate, firstId, b64, io)
      == EmbeddedRows(entries, i, eventId, plate, firstId, b64, io)
         + EmbeddedRow(entries[i], i, eventId, plate, nextId, b64, io.embeddedInsert(i), io.embeddedWrite(i))
  {
    EmbeddedRowsUnfold(entries, i + 1, eventId, plate, firstId, b64, io);
  }

  /** The rows the embedded-image loop adds for the first k entries, ids from firstId on. */
  function EmbeddedRows(entries: seq<EmbeddedImage>, k: nat, eventId: nat, plate: string, firstId: nat,
                        b64: string -> Option<Bytes>, io: IoOracle): (rows: seq<ImageRow>)
    requires k <= |entries|
  {
    if k == 0 then []
    else
      var prev := EmbeddedRows(entries, k - 1, eventId, plate, firstId, b64, io);
      prev + EmbeddedRow(entries[k - 1], k - 1, eventId, plate, firstId + |prev|, b64,
                         io.embeddedInsert(k - 1), io.embeddedWrite(k - 1))
  }

  /** The entries among the first k that are tried at all. */
  function CountDecodable(entries: seq<EmbeddedImage>, k: nat, b64: string -> Option<Bytes>): (n: nat)
    requires k <= |entries|
    ensures n <= k
  {
    if k == 0 then 0 else CountDecodable(entries, k - 1, b64) + (if Decodable(entries[k - 1], b64) then 1 else 0)
  }

  /** The entries among the first k that were tried and whose insert succeeded. */
  function EmbeddedCount(entries: seq<EmbeddedImage>, k: nat, b64: string -> Option<Bytes>, io: IoOracle): (n: nat)
    requires k <= |entries|
    ensures n <= CountDecodable(entries, k, b64)
  {
    if k == 0 then 0
    else
      EmbeddedCount(entries, k - 1, b64, io)
      + (if Decodable(entries[k - 1], b64) && io.embeddedInsert(k - 1) == Inserted then 1 else 0)
  }

  lemma EmbeddedCountNext(entries: seq<EmbeddedImage>, i: nat, b64: string -> Option<Bytes>, io: IoOracle)
    requires i < |entries|
    ensures EmbeddedCount(entries, i + 1, b64, io)
      == EmbeddedCount(entries, i, b64, io) + (if Decodable(entries[i], b64) && io.embeddedInsert(i) == Inserted then 1 else 0)
  {
  }

  /** The image directory after writing, in order, the file each row records. */
  function WithFiles(files: map<string, Bytes>, rows: seq<ImageRow>): map<string, Bytes>
  {
    if rows == [] then files
    else
      var last := rows[|rows| - 1];
      var prev := WithFiles(files, rows[..|rows| - 1]);
      if last.diskFilename.Some? then prev[last.diskFilename.value := last.data] else prev
  }

  lemma {:induction false} WithFilesAppend(files: map<string, Bytes>, rows: seq<ImageRow>, more: seq<ImageRow>)
    ensures WithFiles(files, rows + more) == WithFiles(WithFiles(files, rows), more)
    decreases |more|
  {
    if more == [] {
      assert rows + more == rows;
    } else {
      assert (rows + more)[..|rows + more| - 1] == rows + more[..|more| - 1];
      WithFilesAppend(files, rows, more[..|more| - 1]);
    }
  }

  /** The image table, its counter and the image directory once the given rows were saved on top of a starting state. */
  ghost predicate Saved(images: seq<ImageRow>, nextImageId: nat, files: map<string, Bytes>, rows: seq<ImageRow>,
                        images0: seq<ImageRow>, firstId: nat, files0: map<string, Bytes>)
  {
    && images == images0 + rows
    && nextImageId == firstId + |rows|
    && files == WithFiles(files0, rows)
  }

  lemma SavedAppend(images: seq<ImageRow>, nextImageId: nat, files: map<string, Bytes>, rows: seq<ImageRow>,
                    added: seq<ImageRow>, images0: seq<ImageRow>, firstId: nat, files0: map<string, Bytes>)
    requires Saved(images, nextImageId, files, rows, images0, firstId, files0)
    ensures Saved(images + added, nextImageId + |added|, WithFiles(files, added), rows + added, images0, firstId, files0)
  {
    assert images + added == images0 + (rows + added);
    assert WithFiles(files, added) == WithFiles(files0, rows + added) by {
      WithFilesAppend(files0, rows, added);
    }
  }

  /** Writes the payload file and, only when that succeeds, records its name on the event. */
  method SaveJson(db: Database, fs: DataDir, eventId: nat, raw: Bytes, jsonName: string, plate: string, ok: bool)
    requires db.Valid()
    modifies db`events, fs`jsonFiles
    ensures db.Valid()
    ensures var name := JsonDiskName(eventId, jsonName, plate);
      && db.events == (if ok then WithJsonFilename(old(db.events), eventId, name) else old(db.events))
      && fs.jsonFiles == (if ok then old(fs.jsonFiles)[name := raw] else old(fs.jsonFiles))
  {
    var jsonFilename: string;
    if jsonName == "" {
      var safePlate := SanitizeFilename(plate);
      if safePlate == "" {
        safePlate := "unknown";
      }
      jsonFilename := Decimal(eventId) + "_" + safePlate + ".json";
    } else {
      jsonFilename := Decimal(eventId) + "_" + SanitizeFilename(jsonName);
    }
    var written := fs.WriteJson(jsonFilename, raw, ok);
    if written {
      db.UpdateEventJsonFilename(eventId, jsonFilename);
    }
  }

  /** One pass of the uploaded-image loop: the rows and files it adds, and whether it counts. */
  method SaveUpload(db: Database, fs: DataDir, eventId: nat, plate: string, img: Upload, i: nat,
                    outcome: InsertOutcome, writeOk: bool)
    returns (counted: bool)
    requires db.Valid()
    modifies db`images, db`nextImageId, fs`imageFiles
    ensures db.Valid()
    ensures var added := UploadRow(img, i, eventId, plate, old(db.nextImageId), outcome, writeOk);
      && db.images == old(db.images) + added
      && db.nextImageId == old(db.nextImageId) + |added|
      && fs.imageFiles == WithFiles(old(fs.imageFiles), added)
    ensures counted <==> outcome == Inserted
  {
    ghost var before := db.images;
    var imgType := ImageTypeFor(img.filename);
    var imgId := db.InsertImageWithId(eventId, imgType, img.filename, img.data, outcome);
    if imgId.None? {
      return false;
    }
    var id := imgId.value;
    var diskFilename := UploadedDiskName(id, img.filename, plate, i);
    var row := ImageRow(id, eventId, imgType, img.filename, img.data, None);
    var written := fs.WriteImage(diskFilename, img.data, writeOk);
    if written {
      UpdateLastImage(before, row, diskFilename);
      db.UpdateImageDiskFilename(id, diskFilename);
    }
    return true;
  }

  /** Saving image i on top of the first i images' rows gives the first i + 1 images' rows. */
  method SaveNextUpload(db: Database, fs: DataDir, ups: seq<Upload>, i: nat, eventId: nat, plate: string, io: IoOracle,
                        ghost firstId: nat, ghost images0: seq<ImageRow>, ghost files0: map<string, Bytes>)
    returns (counted: bool)
    requires i < |ups|
    requires db.Valid()
    requires Saved(db.images, db.nextImageId, fs.imageFiles, UploadRows(ups, i, eventId, plate, firstId, io), images0, firstId, files0)
    modifies db`images, db`nextImageId, fs`imageFiles
    ensures db.Valid()
    ensures Saved(db.images, db.nextImageId, fs.imageFiles, UploadRows(ups, i + 1, eventId, plate, firstId, io),
                  images0, firstId, files0)
    ensures counted <==> io.uploadInsert(i) == Inserted
  {
    ghost var rows := UploadRows(ups, i, eventId, plate, firstId, io);
    ghost var added := UploadRow(ups[i], i, eventId, plate, db.nextImageId, io.uploadInsert(i), io.uploadWrite(i));
    SavedAppend(db.images, db.nextImageId, fs.imageFiles, rows, added, images0, firstId, files0);
    UploadRowsNext(ups, i, eventId, plate, firstId, io, db.nextImageId);
    counted := SaveUpload(db, fs, eventId, plate, ups[i], i, io.uploadInsert(i), io.uploadWrite(i));
  }

  /** The loop over the uploaded images. */
  method SaveUploadedImages(db: Database, fs: DataDir, eventId: nat, plate: string, ups: seq<Upload>, io: IoOracle)
    returns (count: nat)
    requires db.Valid()
    modifies db`images, db`nextImageId, fs`imageFiles
    ensures db.Valid()
    ensures Saved(db.images, db.nextImageId, fs.imageFiles, UploadRows(ups, |ups|, eventId, plate, old(db.nextImageId), io),
                  old(db.images), old(db.nextImageId), old(fs.imageFiles))
    ensures count == UploadCount(io, |ups|)
  {
    count := 0;
    ghost var firstId, images0, files0 := db.nextImageId, db.images, fs.imageFiles;
    for i := 0 to |ups|
      invariant db.Valid()
      invariant Saved(db.images, db.nextImageId, fs.imageFiles, UploadRows(ups, i, eventId, plate, firstId, io),
                      images0, firstId, files0)
      invariant count == UploadCount(io, i)
    {
      var counted := SaveNextUpload(db, fs, ups, i, eventId, plate, io, firstId, images0, files0);
      UploadCountNext(io, i);
      if counted {
        count := count + 1;
      }
    }
  }

  /** One pass of the ImageArray loop: the rows and files it adds, and whether it counts. */
  method SaveEmbedded(db: Database, fs: DataDir, eventId: nat, plate: string, img: EmbeddedImage, i: nat,
                      b64: string -> Option<Bytes>, outcome: InsertOutcome, writeOk: bool)
    returns (counted: bool)
    requires db.Valid()
    modifies db`images, db`nextImageId, fs`imageFiles
    ensures db.Valid()
    ensures var added := EmbeddedRow(img, i, eventId, plate, old(db.nextImageId), b64, outcome, writeOk);
      && db.images == old(db.images) + added
      && db.nextImageId == old(db.nextImageId) + |added|
      && fs.imageFiles == WithFiles(old(fs.imageFiles), added)
    ensures counted <==> Decodable(img, b64) && outcome == Inserted
  {
    ghost var before := db.images;
    if img.binaryImage == "" {
      return false;
    }
    var decoded := b64(img.binaryImage);
    if decoded.None? {
      return false;
    }
    var imgType, ext := EmbeddedType(img.imageType), EmbeddedExt(img.imageFormat);
    var filename := EmbeddedFilename(imgType, ext, i);
    var imgId := db.InsertImageWithId(eventId, imgType, filename, decoded.value, outcome);
    if imgId.None? {
      return false;
    }
    var id := imgId.value;
    var diskFilename := EmbeddedDiskName(id, plate, imgType, ext);
    var row := ImageRow(id, eventId, imgType, filename, decoded.value, None);
    var written := fs.WriteImage(diskFilename, decoded.value, writeOk);
    if written {
      UpdateLastImage(before, row, diskFilename);
      db.UpdateImageDiskFilename(id, diskFilename);
    }
    return true;
  }

  /** Saving entry i on top of the first i entries' rows gives the first i + 1 entries' rows. */
  method SaveNextEmbedded(db: Database, fs: DataDir, entries: seq<EmbeddedImage>, i: nat, eventId: nat, plate: string,
                          b64: string -> Option<Bytes>, io: IoOracle,
                          ghost firstId: nat, ghost images0: seq<ImageRow>, ghost files0: map<string, Bytes>)
    returns (counted: bool)
    requires i < |entries|
    requires db.Valid()
    requires Saved(db.images, db.nextImageId, fs.imageFiles, EmbeddedRows(entries, i, eventId, plate, firstId, b64, io),
                   images0, firstId, files0)
    modifies db`images, db`nextImageId, fs`imageFiles
    ensures db.Valid()
    ensures Saved(db.images, db.nextImageId, fs.imageFiles, EmbeddedRows(entries, i + 1, eventId, plate, firstId, b64, io),
                  images0, firstId, files0)
    ensures counted <==> Decodable(entries[i], b64) && io.embeddedInsert(i) == Inserted
  {
    ghost var rows := EmbeddedRows(entries, i, eventId, plate, firstId, b64, io);
    ghost var added := EmbeddedRow(entries[i], i, eventId, plate, db.nextImageId, b64,
                                   io.embeddedInsert(i), io.embeddedWrite(i));
    SavedAppend(db.images, db.nextImageId, fs.imageFiles, rows, added, images0, firstId, files0);
    EmbeddedRowsNext(entries, i, eventId, plate, firstId, b64, io, db.nextImageId);
    counted := SaveEmbedded(db, fs, eventId, plate, entries[i], i, b64, io.embeddedInsert(i), io.embeddedWrite(i));
  }

  /** The loop over ImageArray. */
  method SaveEmbeddedImages(db: Database, fs: DataDir, eventId: nat, plate: string, entries: seq<EmbeddedImage>,
                            b64: string -> Option<Bytes>, io: IoOracle)
    returns (count: nat)
    requires db.Valid()
    modifies db`images, db`nextImageId, fs`imageFiles
    ensures db.Valid()
    ensures Saved(db.images, db.nextImageId, fs.imageFiles,
                  EmbeddedRows(entries, |entries|, eventId, plate, old(db.nextImageId), b64, io),
                  old(db.images), old(db.nextImageId), old(fs.imageFiles))
    ensures count == EmbeddedCount(entries, |entries|, b64, io)
  {
    count := 0;
    ghost var firstId, images0, files0 := db.nextImageId, db.images, fs.imageFiles;
    for i := 0 to |entries|
      invariant db.Valid()
      invariant Saved(db.images, db.nextImageId, fs.imageFiles, EmbeddedRows(entries, i, eventId, plate, firstId, b64, io),
                      images0, firstId, files0)
      invariant count == EmbeddedCount(entries, i, b64, io)
    {
      var counted := SaveNextEmbedded(db, fs, entries, i, eventId, plate, b64, io, firstId, images0, files0);
      EmbeddedCountNext(entries, i, b64, io);
      if counted {
        count := count + 1;
      }
    }
  }

  /** The image rows one accepted request adds: the uploads first, then the ImageArray entries. */
  function IngestedRows(p: Prepared, eventId: nat, plate: string, firstId: nat, b64: string -> Option<Bytes>, io: IoOracle)
    : seq<ImageRow>
  {
    var ups := UploadRows(p.payload.uploads, |p.payload.uploads|, eventId, plate, firstId, io);
    ups + EmbeddedRows(p.event.imageArray, |p.event.imageArray|, eventId, plate, firstId + |ups|, b64, io)
  }

  /** Saving the uploads and then the ImageArray entries saves the rows of the request. */
  lemma SavedIngested(images: seq<ImageRow>, nextImageId: nat, files: map<string, Bytes>,
                      mid: seq<ImageRow>, midId: nat, midFiles: map<string, Bytes>,
                      p: Prepared, eventId: nat, plate: string, b64: string -> Option<Bytes>, io: IoOracle,
                      images0: seq<ImageRow>, firstId: nat, files0: map<string, Bytes>)
    requires Saved(mid, midId, midFiles, UploadRows(p.payload.uploads, |p.payload.uploads|, eventId, plate, firstId, io),
                   images0, firstId, files0)
    requires Saved(images, nextImageId, files,
                   EmbeddedRows(p.event.imageArray, |p.event.imageArray|, eventId, plate, midId, b64, io),
                   mid, midId, midFiles)
    ensures Saved(images, nextImageId, files, IngestedRows(p, eventId, plate, firstId, b64, io), images0, firstId, files0)
  {
    var ups := UploadRows(p.payload.uploads, |p.payload.uploads|, eventId, plate, firstId, io);
    var embs := EmbeddedRows(p.event.imageArray, |p.event.imageArray|, eventId, plate, midId, b64, io);
    SavedAppend(mid, midId, midFiles, ups, embs, images0, firstId, files0);
  }

  /** The `images` figure of the response: the images whose insert succeeded, in both loops. */
  function ImageCount(p: Prepared, b64: string -> Option<Bytes>, io: IoOracle): nat
  {
    UploadCount(io, |p.payload.uploads|) + EmbeddedCount(p.event.imageArray, |p.event.imageArray|, b64, io)
  }

  lemma {:induction false} UploadCountIgnoresWrites(io: IoOracle, io2: IoOracle, k: nat)
    requires io2.uploadInsert == io.uploadInsert
    ensures UploadCount(io2, k) == UploadCount(io, k)
  {
    if k > 0 {
      UploadCountIgnoresWrites(io, io2, k - 1);
    }
  }

  lemma {:induction false} EmbeddedCountIgnoresWrites(entries: seq<EmbeddedImage>, k: nat, b64: string -> Option<Bytes>,
                                                      io: IoOracle, io2: IoOracle)
    requires k <= |entries|
    requires io2.embeddedInsert == io.embeddedInsert
    ensures EmbeddedCount(entries, k, b64, io2) == EmbeddedCount(entries, k, b64, io)
  {
    if k > 0 {
      EmbeddedCountIgnoresWrites(entries, k - 1, b64, io, io2);
    }
  }

  /** The image count depends on the inserts only: a failed file write never lowers it. */
  lemma ImageCountIgnoresWrites(p: Prepared, b64: string -> Option<Bytes>, io: IoOracle, io2: IoOracle)
    requires io2.uploadInsert == io.uploadInsert && io2.embeddedInsert == io.embeddedInsert
    ensures ImageCount(p, b64, io2) == ImageCount(p, b64, io)
  {
    UploadCountIgnoresWrites(io, io2, |p.payload.uploads|);
    EmbeddedCountIgnoresWrites(p.event.imageArray, |p.event.imageArray|, b64, io, io2);
  }

  /** The response HandleAPI sends, given the id the event insert would assign. */
  function ApiResponse(req: Request, decode: Bytes -> Option<IncomingEvent>, b64: string -> Option<Bytes>,
                       io: IoOracle, eventId: nat): ApiResult
  {
    match Prepare(req, decode)
    case Failure(e) => ApiFailure(e)
    case Success(p) =>
      if !io.eventInsertOk then ApiFailure(DatabaseError)
      else ApiSuccess(eventId, ResolvePlate(p.event), ImageCount(p, b64, io))
  }

  /** The event row an accepted request leaves. */
  function IngestedEvent(p: Prepared, eventId: nat, nanos: int, parseFloat: string -> Option<real>, jsonWriteOk: bool)
    : EventRow
  {
    var name := JsonDiskName(eventId, p.payload.jsonName, ResolvePlate(p.event));
    EventRow(eventId, NormalizeEvent(p.event, p.payload.raw, nanos, parseFloat),
             if jsonWriteOk then Some(name) else None, None)
  }

  /** Both image loops of HandleAPI, one after the other. */
  method SaveImages(db: Database, fs: DataDir, p: Prepared, eventId: nat, plate: string,
                    b64: string -> Option<Bytes>, io: IoOracle)
    returns (count: nat)
    requires db.Valid()
    modifies db`images, db`nextImageId, fs`imageFiles
    ensures db.Valid()
    ensures Saved(db.images, db.nextImageId, fs.imageFiles, IngestedRows(p, eventId, plate, old(db.nextImageId), b64, io),
                  old(db.images), old(db.nextImageId), old(fs.imageFiles))
    ensures count == ImageCount(p, b64, io)
  {
    ghost var images0, firstId, files0 := db.images, db.nextImageId, fs.imageFiles;
    var uploaded := SaveUploadedImages(db, fs, eventId, plate, p.payload.uploads, io);
    ghost var mid, midId, midFiles := db.images, db.nextImageId, fs.imageFiles;
    var embedded := SaveEmbeddedImages(db, fs, eventId, plate, p.event.imageArray, b64, io);
    SavedIngested(db.images, db.nextImageId, fs.imageFiles, mid, midId, midFiles, p, eventId, plate, b64, io,
                  images0, firstId, files0);
    count := uploaded + embedded;
  }

  /** The event table, its counter and the payload directory once the event of a request was saved. */
  ghost predicate EventSaved(events: seq<EventRow>, nextEventId: nat, jsonFiles: map<string, Bytes>,
                             events0: seq<EventRow>, id: nat, jsonFiles0: map<string, Bytes>,
                             p: Prepared, nanos: int, parseFloat: string -> Option<real>, jsonWriteOk: bool)
  {
    var name := JsonDiskName(id, p.payload.jsonName, ResolvePlate(p.event));
    && events == events0 + [IngestedEvent(p, id, nanos, parseFloat, jsonWriteOk)]
    && nextEventId == id + 1
    && jsonFiles == (if jsonWriteOk then jsonFiles0[name := p.payload.raw] else jsonFiles0)
  }

  /** The event insert and, when it succeeds, the payload file. */
  method SaveEvent(db: Database, fs: DataDir, p: Prepared, parseFloat: string -> Option<real>, nanos: int, io: IoOracle)
    returns (eventId: Option<nat>)
    requires db.Valid()
    modifies db`events, db`nextEventId, fs`jsonFiles
    ensures db.Valid()
    ensures eventId == if io.eventInsertOk then Some(old(db.nextEventId)) else None
    ensures !io.eventInsertOk ==>
      db.events == old(db.events) && db.nextEventId == old(db.nextEventId) && fs.jsonFiles == old(fs.jsonFiles)
    ensures io.eventInsertOk ==>
      EventSaved(db.events, db.nextEventId, fs.jsonFiles, old(db.events), old(db.nextEventId), old(fs.jsonFiles),
                 p, nanos, parseFloat, io.jsonWriteOk)
  {
    var fields := NormalizeEvent(p.event, p.payload.raw, nanos, parseFloat);
    var plate := ResolvePlate(p.event);
    ghost var events0 := db.events;
    eventId := db.InsertEvent(fields, io.eventInsertOk);
    if eventId.None? {
      return;
    }
    var id := eventId.value;
    UpdateLastEvent(events0, EventRow(id, fields, None, None), JsonDiskName(id, p.payload.jsonName, plate));
    SaveJson(db, fs, id, p.payload.raw, p.payload.jsonName, plate, io.jsonWriteOk);
  }

  /** The database and the data directory once an accepted request has been recorded. */
  ghost predicate Recorded(events: seq<EventRow>, nextEventId: nat, jsonFiles: map<string, Bytes>,
                           images: seq<ImageRow>, nextImageId: nat, imageFiles: map<string, Bytes>,
                           events0: seq<EventRow>, id: nat, jsonFiles0: map<string, Bytes>,
                           images0: seq<ImageRow>, firstId: nat, imageFiles0: map<string, Bytes>,
                           p: Prepared, nanos: int, parseFloat: string -> Option<real>,
                           b64: string -> Option<Bytes>, io: IoOracle)
  {
    && EventSaved(events, nextEventId, jsonFiles, events0, id, jsonFiles0, p, nanos, parseFloat, io.jsonWriteOk)
    && Saved(images, nextImageId, imageFiles, IngestedRows(p, id, ResolvePlate(p.event), firstId, b64, io),
             images0, firstId, imageFiles0)
  }

  /** The part of HandleAPI after the payload was decoded: the event insert and everything it enables. */
  method Record(db: Database, fs: DataDir, p: Prepared, b64: string -> Option<Bytes>,
                parseFloat: string -> Option<real>, nanos: int, io: IoOracle)
    returns (r: ApiResult)
    requires db.Valid()
    modifies db`events, db`nextEventId, db`images, db`nextImageId, fs`jsonFiles, fs`imageFiles
    ensures db.Valid()
    ensures r == if io.eventInsertOk then ApiSuccess(old(db.nextEventId), ResolvePlate(p.event), ImageCount(p, b64, io))
                 else ApiFailure(DatabaseError)
    ensures !io.eventInsertOk ==>
      && db.events == old(db.events) && db.nextEventId == old(db.nextEventId)
      && db.images == old(db.images) && db.nextImageId == old(db.nextImageId)
      && fs.jsonFiles == old(fs.jsonFiles) && fs.imageFiles == old(fs.imageFiles)
    ensures io.eventInsertOk ==>
      Recorded(db.events, db.nextEventId, fs.jsonFiles, db.images, db.nextImageId, fs.imageFiles,
               old(db.events), old(db.nextEventId), old(fs.jsonFiles), old(db.images), old(db.nextImageId),
               old(fs.imageFiles), p, nanos, parseFloat, b64, io)
  {
    var eventId := SaveEvent(db, fs, p, parseFloat, nanos, io);
    if eventId.None? {
      return ApiFailure(DatabaseError);
    }
    var plate := ResolvePlate(p.event);
    var count := SaveImages(db, fs, p, eventId.value, plate, b64, io);
    r := ApiSuccess(eventId.value, plate, count);
  }

  /**
   * HandleAPI. A rejected request changes nothing; an accepted one appends its event
   * (with the payload file name when the file was written), writes the payload file and
   * saves the images of both loops with consecutive ids.
   */
  method HandleApi(db: Database, fs: DataDir, req: Request, decode: Bytes -> Option<IncomingEvent>,
                   b64: string -> Option<Bytes>, parseFloat: string -> Option<real>, nanos: int, io: IoOracle)
    returns (r: ApiResult)
    requires db.Valid()
    modifies db`events, db`nextEventId, db`images, db`nextImageId, fs`jsonFiles, fs`imageFiles
    ensures db.Valid()
    ensures r == ApiResponse(req, decode, b64, io, old(db.nextEventId))
    ensures r.ApiFailure? ==>
      && db.events == old(db.events) && db.nextEventId == old(db.nextEventId)
      && db.images == old(db.images) && db.nextImageId == old(db.nextImageId)
      && fs.jsonFiles == old(fs.jsonFiles) && fs.imageFiles == old(fs.imageFiles)
    ensures r.ApiSuccess? ==>
      Recorded(db.events, db.nextEventId, fs.jsonFiles, db.images, db.nextImageId, fs.imageFiles,
               old(db.events), old(db.nextEventId), old(fs.jsonFiles), old(db.images), old(db.nextImageId),
               old(fs.imageFiles), Prepare(req, decode).value, nanos, parseFloat, b64, io)
  {
    var extracted := ExtractPayload(req);
    if extracted.Failure? {
      return ApiFailure(RequestRejected(extracted.error));
    }
    var decoded := decode(extracted.value.raw);
    if decoded.None? {
      return ApiFailure(InvalidJson);
    }
    ghost var p := Prepared(extracted.value, decoded.value);
    assert Prepare(req, decode) == Success(p);
    r := Record(db, fs, Prepared(extracted.value, decoded.value), b64, parseFloat, nanos, io);
  }

  /** A request is answered with success exactly when it was read, decoded and its event inserted. */
  lemma ApiResponseOutcome(req: Request, decode: Bytes -> Option<IncomingEvent>, b64: string -> Option<Bytes>,
                           io: IoOracle, eventId: nat)
    ensures var r := ApiResponse(req, decode, b64, io, eventId);
      r.ApiSuccess? <==> Extract(req).Success? && decode(Extract(req).value.raw).Some? && io.eventInsertOk
    ensures var r := ApiResponse(req, decode, b64, io, eventId);
      r.ApiFailure? ==> (StatusCode(r.error) == 500 <==> Prepare(req, decode).Success? && !io.eventInsertOk)
    ensures var r := ApiResponse(req, decode, b64, io, eventId);
      r.ApiSuccess? ==> r.id == eventId && r.plate == ResolvePlate(decode(Extract(req).value.raw).value)
  {
  }

  /** A row of the given event with the given id, whose file, if any, is named after that id. */
  predicate RowFor(row: ImageRow, eventId: nat, id: nat)
  {
    row.id == id && row.eventId == eventId && (row.diskFilename.Some? ==> NamedAfter(row.diskFilename.value, id))
  }

  /** Rows with consecutive ids from firstId on, all of the given event, each file named after its row. */
  predicate RowsFor(rows: seq<ImageRow>, eventId: nat, firstId: nat)
  {
    forall j :: 0 <= j < |rows| ==> RowFor(rows[j], eventId, firstId + j)
  }

  lemma RowsForAppend(rows: seq<ImageRow>, more: seq<ImageRow>, eventId: nat, firstId: nat)
    requires RowsFor(rows, eventId, firstId) && RowsFor(more, eventId, firstId + |rows|)
    ensures RowsFor(rows + more, eventId, firstId)
  {
    forall j | |rows| <= j < |rows + more|
      ensures (rows + more)[j] == more[j - |rows|]
    {
    }
  }

  /** RowsForAppend for a sequence known to be the concatenation. */
  lemma RowsForSplit(all: seq<ImageRow>, rows: seq<ImageRow>, more: seq<ImageRow>, eventId: nat, firstId: nat)
    requires all == rows + more
    requires RowsFor(rows, eventId, firstId) && RowsFor(more, eventId, firstId + |rows|)
    ensures RowsFor(all, eventId, firstId)
  {
    RowsForAppend(rows, more, eventId, firstId);
  }

  /** Every file name recorded by the rows holds only safe runes. */
  predicate SafeNames(rows: seq<ImageRow>)
  {
    forall j :: 0 <= j < |rows| && rows[j].diskFilename.Some? ==> AllSafe(rows[j].diskFilename.value)
  }

  /** Every file name recorded by the rows is the row id, '_' and the sanitized original name. */
  predicate PlainNames(rows: seq<ImageRow>)
  {
    forall j :: 0 <= j < |rows| && rows[j].diskFilename.Some? ==>
      rows[j].diskFilename.value == Decimal(rows[j].id) + "_" + SanitizeFilename(rows[j].filename)
  }

  lemma SafeNamesAppend(rows: seq<ImageRow>, more: seq<ImageRow>)
    requires SafeNames(rows) && SafeNames(more)
    ensures SafeNames(rows + more)
  {
    forall j | |rows| <= j < |rows + more|
      ensures (rows + more)[j] == more[j - |rows|]
    {
    }
  }

  lemma PlainNamesAppend(rows: seq<ImageRow>, more: seq<ImageRow>)
    requires PlainNames(rows) && PlainNames(more)
    ensures PlainNames(rows + more)
  {
    forall j | |rows| <= j < |rows + more|
      ensures (rows + more)[j] == more[j - |rows|]
    {
    }
  }

  /** The row of one upload, if kept, has the given id and event and a file name that carries the id. */
  lemma UploadRowFor(u: Upload, index: nat, eventId: nat, plate: string, id: nat, outcome: InsertOutcome, written: bool)
    ensures RowsFor(UploadRow(u, index, eventId, plate, id, outcome, written), eventId, id)
  {
    UploadedDiskNameSafe(id, u.filename, plate, index);
  }

  /** The file name of one upload's row, if any, holds only safe runes. */
  lemma UploadRowSafe(u: Upload, index: nat, eventId: nat, plate: string, id: nat, outcome: InsertOutcome, written: bool)
    ensures SafeNames(UploadRow(u, index, eventId, plate, id, outcome, written))
  {
    UploadedDiskNameSafe(id, u.filename, plate, index);
  }

  lemma UploadRowsForStep(ups: seq<Upload>, k: nat, eventId: nat, plate: string, firstId: nat, io: IoOracle)
    requires 0 < k <= |ups|
    requires RowsFor(UploadRows(ups, k - 1, eventId, plate, firstId, io), eventId, firstId)
    ensures RowsFor(UploadRows(ups, k, eventId, plate, firstId, io), eventId, firstId)
  {
    var prev := UploadRows(ups, k - 1, eventId, plate, firstId, io);
    var added := UploadRow(ups[k - 1], k - 1, eventId, plate, firstId + |prev|, io.uploadInsert(k - 1), io.uploadWrite(k - 1));
    UploadRowsUnfold(ups, k, eventId, plate, firstId, io);
    UploadRowFor(ups[k - 1], k - 1, eventId, plate, firstId + |prev|, io.uploadInsert(k - 1), io.uploadWrite(k - 1));
    RowsForSplit(UploadRows(ups, k, eventId, plate, firstId, io), prev, added, eventId, firstId);
  }

  /** Every uploaded image row belongs to the event, ids follow each other, and file names carry the id. */
  lemma {:induction false} UploadRowsFor(ups: seq<Upload>, k: nat, eventId: nat, plate: string, firstId: nat, io: IoOracle)
    requires k <= |ups|
    ensures RowsFor(UploadRows(ups, k, eventId, plate, firstId, io), eventId, firstId)
  {
    if k > 0 {
      UploadRowsFor(ups, k - 1, eventId, plate, firstId, io);
      UploadRowsForStep(ups, k, eventId, plate, firstId, io);
    }
  }


  lemma UploadRowsSafeStep(ups: seq<Upload>, k: nat, eventId: nat, plate: string, firstId: nat, io: IoOracle)
    requires 0 < k <= |ups|
    requires SafeNames(UploadRows(ups, k - 1, eventId, plate, firstId, io))
    ensures SafeNames(UploadRows(ups, k, eventId, plate, firstId, io))
  {
    var prev := UploadRows(ups, k - 1, eventId, plate, firstId, io);
    var added := UploadRow(ups[k - 1], k - 1, eventId, plate, firstId + |prev|, io.uploadInsert(k - 1), io.uploadWrite(k - 1));
    UploadRowsUnfold(ups, k, eventId, plate, firstId, io);
    UploadRowSafe(ups[k - 1], k - 1, eventId, plate, firstId + |prev|, io.uploadInsert(k - 1), io.uploadWrite(k - 1));
    SafeNamesAppend(prev, added);
  }

  /** Every file name the uploaded-image loop records holds only safe runes. */
  lemma {:induction false} UploadRowsSafe(ups: seq<Upload>, k: nat, eventId: nat, plate: string, firstId: nat, io: IoOracle)
    requires k <= |ups|
    ensures SafeNames(UploadRows(ups, k, eventId, plate, firstId, io))
  {
    if k > 0 {
      UploadRowsSafe(ups, k - 1, eventId, plate, firstId, io);
      UploadRowsSafeStep(ups, k, eventId, plate, firstId, io);
    }
  }


  lemma UploadNamesPlainStep(ups: seq<Upload>, k: nat, eventId: nat, plate: string, firstId: nat, io: IoOracle)
    requires 0 < k <= |ups|
    requires forall i :: 0 <= i < |ups| ==> ups[i].filename != ""
    requires PlainNames(UploadRows(ups, k - 1, eventId, plate, firstId, io))
    ensures PlainNames(UploadRows(ups, k, eventId, plate, firstId, io))
  {
    var prev := UploadRows(ups, k - 1, eventId, plate, firstId, io);
    var added := UploadRow(ups[k - 1], k - 1, eventId, plate, firstId + |prev|, io.uploadInsert(k - 1), io.uploadWrite(k - 1));
    UploadRowsUnfold(ups, k, eventId, plate, firstId, io);
    UploadedFallbackUnreachable(firstId + |prev|, ups[k - 1].filename, plate, k - 1);
    PlainNamesAppend(prev, added);
  }

  /** With non-empty upload names (always the case for form parts) the file name is the id and the sanitized name. */
  lemma {:induction false} UploadNamesPlain(ups: seq<Upload>, k: nat, eventId: nat, plate: string, firstId: nat, io: IoOracle)
    requires k <= |ups|
    requires forall i :: 0 <= i < |ups| ==> ups[i].filename != ""
    ensures PlainNames(UploadRows(ups, k, eventId, plate, firstId, io))
  {
    if k > 0 {
      UploadNamesPlain(ups, k - 1, eventId, plate, firstId, io);
      UploadNamesPlainStep(ups, k, eventId, plate, firstId, io);
    }
  }


  /** The uploads of a multipart request always have names, so their files never take the fallback name. */
  lemma FormUploadNamesPlain(parts: seq<FilePart>, eventId: nat, plate: string, firstId: nat, io: IoOracle)
    ensures PlainNames(UploadRows(ImageUploads(parts), |ImageUploads(parts)|, eventId, plate, firstId, io))
  {
    var ups := ImageUploads(parts);
    ImageUploadNamesNonEmpty(parts);
    assert forall i :: 0 <= i < |ups| ==> ups[i] in ups;
    UploadNamesPlain(ups, |ups|, eventId, plate, firstId, io);
  }

  /** The row of one ImageArray entry, if kept, has the given id and event and a file name that carries the id. */
  lemma EmbeddedRowFor(entry: EmbeddedImage, index: nat, eventId: nat, plate: string, id: nat,
                       b64: string -> Option<Bytes>, outcome: InsertOutcome, written: bool)
    ensures RowsFor(EmbeddedRow(entry, index, eventId, plate, id, b64, outcome, written), eventId, id)
  {
    EmbeddedDiskNameNamedAfter(id, plate, EmbeddedType(entry.imageType), EmbeddedExt(entry.imageFormat));
  }

  lemma EmbeddedRowsForStep(entries: seq<EmbeddedImage>, k: nat, eventId: nat, plate: string, firstId: nat,
                            b64: string -> Option<Bytes>, io: IoOracle)
    requires 0 < k <= |entries|
    requires RowsFor(EmbeddedRows(entries, k - 1, eventId, plate, firstId, b64, io), eventId, firstId)
    ensures RowsFor(EmbeddedRows(entries, k, eventId, plate, firstId, b64, io), eventId, firstId)
  {
    var prev := EmbeddedRows(entries, k - 1, eventId, plate, firstId, b64, io);
    EmbeddedRowsUnfold(entries, k, eventId, plate, firstId, b64, io);
    EmbeddedRowFor(entries[k - 1], k - 1, eventId, plate, firstId + |prev|, b64,
                   io.embeddedInsert(k - 1), io.embeddedWrite(k - 1));
    RowsForAppend(prev, EmbeddedRow(entries[k - 1], k - 1, eventId, plate, firstId + |prev|, b64,
                                    io.embeddedInsert(k - 1), io.embeddedWrite(k - 1)), eventId, firstId);
  }

  /** Every embedded image row belongs to the event, ids follow each other, and file names carry the id. */
  lemma {:induction false} EmbeddedRowsFor(entries: seq<EmbeddedImage>, k: nat, eventId: nat, plate: string, firstId: nat,
                                           b64: string -> Option<Bytes>, io: IoOracle)
    requires k <= |entries|
    ensures RowsFor(EmbeddedRows(entries, k, eventId, plate, firstId, b64, io), eventId, firstId)
  {
    if k > 0 {
      EmbeddedRowsFor(entries, k - 1, eventId, plate, firstId, b64, io);
      EmbeddedRowsForStep(entries, k, eventId, plate, firstId, b64, io);
    }
  }


  /** An image counts only if its row was kept, and a row is kept only for an image of the request. */
  lemma {:induction false} UploadCountBound(ups: seq<Upload>, k: nat, eventId: nat, plate: string, firstId: nat, io: IoOracle)
    requires k <= |ups|
    ensures UploadCount(io, k) <= |UploadRows(ups, k, eventId, plate, firstId, io)| <= k
  {
    if k > 0 {
      UploadCountBound(ups, k - 1, eventId, plate, firstId, io);
    }
  }

  /** An entry counts only if its row was kept, and a row is kept only for an entry that decodes. */
  lemma {:induction false} EmbeddedCountBound(entries: seq<EmbeddedImage>, k: nat, eventId: nat, plate: string, firstId: nat,
                                              b64: string -> Option<Bytes>, io: IoOracle)
    requires k <= |entries|
    ensures EmbeddedCount(entries, k, b64, io) <= |EmbeddedRows(entries, k, eventId, plate, firstId, b64, io)|
    ensures |EmbeddedRows(entries, k, eventId, plate, firstId, b64, io)| <= CountDecodable(entries, k, b64)
  {
    if k > 0 {
      EmbeddedCountBound(entries, k - 1, eventId, plate, firstId, b64, io);
    }
  }

  /** The rows of a request carry consecutive ids from firstId on and all belong to its event. */
  lemma {:induction false} IngestedRowsFor(p: Prepared, eventId: nat, plate: string, firstId: nat, b64: string -> Option<Bytes>, io: IoOracle)
    ensures RowsFor(IngestedRows(p, eventId, plate, firstId, b64, io), eventId, firstId)
  {
    var ups := UploadRows(p.payload.uploads, |p.payload.uploads|, eventId, plate, firstId, io);
    var embs := EmbeddedRows(p.event.imageArray, |p.event.imageArray|, eventId, plate, firstId + |ups|, b64, io);
    UploadRowsFor(p.payload.uploads, |p.payload.uploads|, eventId, plate, firstId, io);
    EmbeddedRowsFor(p.event.imageArray, |p.event.imageArray|, eventId, plate, firstId + |ups|, b64, io);
    RowsForAppend(ups, embs, eventId, firstId);
  }

  /** The `images` figure never exceeds the uploads plus the ImageArray entries that decode. */
  lemma ImageCountBound(p: Prepared, b64: string -> Option<Bytes>, io: IoOracle)
    ensures ImageCount(p, b64, io)
      <= |p.payload.uploads| + CountDecodable(p.event.imageArray, |p.event.imageArray|, b64)
      <= |p.payload.uploads| + |p.event.imageArray|
  {
  }

  /** Every row that names a file finds its own data in that file: no later row overwrites it. */
  lemma {:induction false} WithFilesHolds(files: map<string, Bytes>, rows: seq<ImageRow>, eventId: nat, firstId: nat)
    requires RowsFor(rows, eventId, firstId)
    ensures forall j :: 0 <= j < |rows| && rows[j].diskFilename.Some? ==>
      rows[j].diskFilename.value in WithFiles(files, rows)
      && WithFiles(files, rows)[rows[j].diskFilename.value] == rows[j].data
    decreases |rows|
  {
    if rows != [] {
      var n := |rows| - 1;
      var prev := rows[..n];
      WithFilesHolds(files, prev, eventId, firstId);
      forall j | 0 <= j < n && rows[j].diskFilename.Some? && rows[n].diskFilename.Some?
        ensures rows[j].diskFilename.value != rows[n].diskFilename.value
      {
        DistinctIdsDistinctNames(rows[j].diskFilename.value, rows[j].id, rows[n].diskFilename.value, rows[n].id);
      }
      assert forall j :: 0 <= j < n ==> prev[j] == rows[j];
    }
  }

  /** A file that no row names keeps its state. */
  lemma {:induction false} WithFilesElsewhere(files: map<string, Bytes>, rows: seq<ImageRow>, name: string)
    requires forall j :: 0 <= j < |rows| ==> rows[j].diskFilename != Some(name)
    ensures name in WithFiles(files, rows) <==> name in files
    ensures name in files ==> WithFiles(files, rows)[name] == files[name]
    decreases |rows|
  {
    if rows != [] {
      var prev := rows[..|rows| - 1];
      assert forall j :: 0 <= j < |prev| ==> prev[j] == rows[j];
      WithFilesElsewhere(files, prev, name);
    }
  }

  /** No row from position `from` on names the file. */
  predicate NotNamedFrom(images: seq<ImageRow>, from: nat, name: string)
  {
    forall j :: from <= j < |images| ==> images[j].diskFilename != Some(name)
  }

  /**
   * After an accepted request, every new image row belongs to its event, has the next id,
   * and the file it names holds its data; every other file is as before.
   */
  lemma SavedImagesOfRequest(images: seq<ImageRow>, nextImageId: nat, files: map<string, Bytes>,
                             p: Prepared, eventId: nat, plate: string, b64: string -> Option<Bytes>, io: IoOracle,
                             images0: seq<ImageRow>, firstId: nat, files0: map<string, Bytes>)
    requires Saved(images, nextImageId, files, IngestedRows(p, eventId, plate, firstId, b64, io), images0, firstId, files0)
    ensures images[..|images0|] == images0
    ensures forall j :: |images0| <= j < |images| ==>
      && images[j].eventId == eventId && images[j].id == firstId + (j - |images0|)
      && (images[j].diskFilename.Some? ==>
            images[j].diskFilename.value in files && files[images[j].diskFilename.value] == images[j].data)
    ensures forall name :: name in files0 && NotNamedFrom(images, |images0|, name) ==>
      name in files && files[name] == files0[name]
  {
    var rows := IngestedRows(p, eventId, plate, firstId, b64, io);
    IngestedRowsFor(p, eventId, plate, firstId, b64, io);
    WithFilesHolds(files0, rows, eventId, firstId);
    assert forall j :: |images0| <= j < |images| ==> images[j] == rows[j - |images0|];
    forall name | name in files0 && NotNamedFrom(images, |images0|, name)
      ensures name in files && files[name] == files0[name]
    {
      forall j | 0 <= j < |rows|
        ensures rows[j].diskFilename != Some(name)
      {
        assert images[|images0| + j] == rows[j];
      }
      WithFilesElsewhere(files0, rows, name);
    }
  }
}
