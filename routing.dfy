/**
 * The extraction half of HandleAPI: where the payload comes from (a `.json` multipart part,
 * the `json` or `data` form field, or the plain body), which multipart parts are uploaded
 * images, and which image type each image gets.
 */
module Routing {
  import opened Base
  import opened Strings

  /** One multipart file part; `content` is None when opening the part fails. */
  datatype FilePart = FilePart(filename: string, content: Option<Bytes>)

  /** An uploaded image kept for ingestion. */
  datatype Upload = Upload(filename: string, data: Bytes)

  datatype PartKind = JsonPart | ImagePart | OtherPart

  /** Classification by the lower-cased file name's suffix. */
  function ClassifyPart(filename: string): PartKind
  {
    var lower := ToLower(filename);
    if HasSuffix(lower, ".json") then JsonPart
    else if HasSuffix(lower, ".jpg") || HasSuffix(lower, ".jpeg") || HasSuffix(lower, ".png") then ImagePart
    else OtherPart
  }

  predicate IsOpenedJson(p: FilePart)
  {
    p.content.Some? && ClassifyPart(p.filename) == JsonPart
  }

  predicate IsOpenedImage(p: FilePart)
  {
    p.content.Some? && ClassifyPart(p.filename) == ImagePart
  }

  /** What the part loop has gathered: the payload (nil while no `.json` part was seen), its name, the images. */
  datatype Routed = Routed(rawJson: Option<Bytes>, jsonName: string, uploads: seq<Upload>)

  /**
   * The state of the part loop after the given parts. The parts come from a Go map, so
   * their order is arbitrary; only "some `.json` part" is promised about the payload.
   */
  /** One pass of the part loop. */
  function RouteStep(prev: Routed, p: FilePart): Routed
  {
    if p.content.None? then prev
    else match ClassifyPart(p.filename)
      case JsonPart => prev.(rawJson := Some(p.content.value), jsonName := p.filename)
      case ImagePart => prev.(uploads := prev.uploads + [Upload(p.filename, p.content.value)])
      case OtherPart => prev
  }

  function Route(parts: seq<FilePart>): Routed
  {
    if parts == [] then Routed(None, "", []) else RouteStep(Route(parts[..|parts| - 1]), parts[|parts| - 1])
  }

  /** There is a payload exactly when some part is an opened `.json` part, and it is one of them with its name. */
  lemma {:induction false} RouteJsonPart(parts: seq<FilePart>)
    ensures Route(parts).rawJson.None? <==> forall i :: 0 <= i < |parts| ==> !IsOpenedJson(parts[i])
    ensures Route(parts).rawJson.None? ==> Route(parts).jsonName == ""
    ensures Route(parts).rawJson.Some? ==>
      exists i :: 0 <= i < |parts| && IsOpenedJson(parts[i])
                  && Route(parts).rawJson.value == parts[i].content.value && Route(parts).jsonName == parts[i].filename
    decreases |parts|
  {
    if parts != [] {
      var init, last := parts[..|parts| - 1], |parts| - 1;
      RouteJsonPart(init);
      var prev, r := Route(init), Route(parts);
      assert r == RouteStep(prev, parts[last]);
      assert forall i :: 0 <= i < |init| ==> init[i] == parts[i];
      if IsOpenedJson(parts[last]) {
        assert r.rawJson == parts[last].content && r.jsonName == parts[last].filename;
      } else {
        assert r.rawJson == prev.rawJson && r.jsonName == prev.jsonName;
        if r.rawJson.Some? {
          var i :| 0 <= i < |init| && IsOpenedJson(init[i])
                   && prev.rawJson.value == init[i].content.value && prev.jsonName == init[i].filename;
          assert parts[i] == init[i];
        }
      }
    }
  }

  /** A part as an upload when it is an opened image, as nothing otherwise. */
  function KeptImage(part: FilePart): seq<Upload>
  {
    if IsOpenedImage(part) then [Upload(part.filename, part.content.value)] else []
  }

  /** Reference definition: the opened image parts, in the order of the parts. */
  function ImageUploads(parts: seq<FilePart>): seq<Upload>
  {
    if parts == [] then [] else KeptImage(parts[0]) + ImageUploads(parts[1..])
  }

  lemma {:induction false} ImageUploadsAppend(parts: seq<FilePart>, p: FilePart)
    ensures ImageUploads(parts + [p]) == ImageUploads(parts) + KeptImage(p)
    decreases |parts|
  {
    if parts == [] {
      assert [p][1..] == [];
    } else {
      var all := parts + [p];
      assert all[0] == parts[0] && all[1..] == parts[1..] + [p];
      ImageUploadsAppend(parts[1..], p);
      calc {
        ImageUploads(all);
        KeptImage(parts[0]) + ImageUploads(parts[1..] + [p]);
        KeptImage(parts[0]) + (ImageUploads(parts[1..]) + KeptImage(p));
        (KeptImage(parts[0]) + ImageUploads(parts[1..])) + KeptImage(p);
      }
    }
  }

  /** The uploaded images are exactly the opened parts with an image suffix, in order. */
  lemma {:induction false} RouteUploadsAreImageParts(parts: seq<FilePart>)
    ensures Route(parts).uploads == ImageUploads(parts)
    decreases |parts|
  {
    if parts != [] {
      var init, p := parts[..|parts| - 1], parts[|parts| - 1];
      assert init + [p] == parts;
      RouteUploadsAreImageParts(init);
      ImageUploadsAppend(init, p);
      if IsOpenedImage(p) {
        assert Route(parts).uploads == Route(init).uploads + [Upload(p.filename, p.content.value)];
      } else {
        assert Route(parts).uploads == Route(init).uploads;
      }
    }
  }

  /** Every reference upload came from a part with an image suffix, so its name is not empty. */
  lemma {:induction false} ImageUploadNamesNonEmpty(parts: seq<FilePart>)
    ensures forall u :: u in ImageUploads(parts) ==> ClassifyPart(u.filename) == ImagePart && u.filename != ""
    decreases |parts|
  {
    if parts != [] {
      ImageUploadNamesNonEmpty(parts[1..]);
    }
  }

  /** A `.json` part's name ends in ".json" whatever its case, so it is never empty. */
  lemma JsonNameNonEmpty(parts: seq<FilePart>)
    ensures Route(parts).rawJson.Some? ==> HasSuffix(ToLower(Route(parts).jsonName), ".json")
    ensures Route(parts).rawJson.Some? <==> Route(parts).jsonName != ""
  {
    RouteJsonPart(parts);
  }

  /** The loop over the multipart file parts. */
  method CollectParts(parts: seq<FilePart>) returns (rawJson: Option<Bytes>, jsonName: string, uploads: seq<Upload>)
    ensures Routed(rawJson, jsonName, uploads) == Route(parts)
  {
    rawJson, jsonName, uploads := None, "", [];
    for i := 0 to |parts|
      invariant Routed(rawJson, jsonName, uploads) == Route(parts[..i])
    {
      assert parts[..i + 1][..i] == parts[..i];
      var f := parts[i];
      if f.content.None? {
        continue;
      }
      var data := f.content.value;
      var lowerName := ToLower(f.filename);
      if HasSuffix(lowerName, ".json") {
        rawJson := Some(data);
        jsonName := f.filename;
      } else if HasSuffix(lowerName, ".jpg") || HasSuffix(lowerName, ".jpeg") || HasSuffix(lowerName, ".png") {
        uploads := uploads + [Upload(f.filename, data)];
      }
    }
    assert parts[..|parts|] == parts;
  }

  /** A parsed multipart form: its file parts and the `json` and `data` form values. */
  datatype MultipartForm = MultipartForm(parts: seq<FilePart>, jsonField: Bytes, dataField: Bytes)

  /**
   * An incoming request: its Content-Type, the multipart form (None when parsing it fails)
   * and the body (None when reading it fails).
   */
  datatype Request = Request(contentType: string, form: Option<MultipartForm>, body: Option<Bytes>)

  datatype ExtractError = MultipartParseFailed | BodyReadFailed | NoJsonData

  /** The payload, the original name of its `.json` part ("" when none) and the uploaded images. */
  datatype Extracted = Extracted(raw: Bytes, jsonName: string, uploads: seq<Upload>)

  function Extract(req: Request): Result<Extracted, ExtractError>
  {
    if HasPrefix(req.contentType, "multipart/") then
      match req.form
      case None => Failure(MultipartParseFailed)
      case Some(f) =>
        var routed := Route(f.parts);
        var raw :=
          if routed.rawJson.Some? then routed.rawJson.value
          else if f.jsonField != [] then f.jsonField
          else f.dataField;
        if raw == [] then Failure(NoJsonData) else Success(Extracted(raw, routed.jsonName, routed.uploads))
    else
      match req.body
      case None => Failure(BodyReadFailed)
      case Some(b) => if b == [] then Failure(NoJsonData) else Success(Extracted(b, "", []))
  }

  /** The request-reading part of HandleAPI, up to and including the empty-payload check. */
  method ExtractPayload(req: Request) returns (r: Result<Extracted, ExtractError>)
    ensures r == Extract(req)
  {
    var rawJson: Option<Bytes> := None;
    var jsonName := "";
    var uploads: seq<Upload> := [];
    if HasPrefix(req.contentType, "multipart/") {
      if req.form.None? {
        return Failure(MultipartParseFailed);
      }
      var form := req.form.value;
      rawJson, jsonName, uploads := CollectParts(form.parts);
      if rawJson.None? {
        if form.jsonField != [] {
          rawJson := Some(form.jsonField);
        } else if form.dataField != [] {
          rawJson := Some(form.dataField);
        }
      }
    } else {
      if req.body.None? {
        return Failure(BodyReadFailed);
      }
      rawJson := req.body;
    }
    if rawJson.None? || rawJson.value == [] {
      return Failure(NoJsonData);
    }
    r := Success(Extracted(rawJson.value, jsonName, uploads));
  }

  /** An accepted payload is never empty, and its uploads are the image parts of the form. */
  lemma ExtractedPayload(req: Request)
    requires Extract(req).Success?
    ensures |Extract(req).value.raw| > 0
    ensures HasPrefix(req.contentType, "multipart/") ==>
      Extract(req).value.uploads == ImageUploads(req.form.value.parts)
    ensures !HasPrefix(req.contentType, "multipart/") ==>
      Extract(req).value.uploads == [] && Extract(req).value.jsonName == "" && req.body == Some(Extract(req).value.raw)
  {
    if HasPrefix(req.contentType, "multipart/") {
      RouteUploadsAreImageParts(req.form.value.parts);
    }
  }

  /**
   * The form fields are read only when no `.json` part was found, `json` before `data`;
   * with a `.json` part, whatever the fields hold, the outcome is the same.
   */
  lemma FormFieldsFallback(req: Request, json: Bytes, data: Bytes)
    requires HasPrefix(req.contentType, "multipart/") && req.form.Some?
    ensures var f := req.form.value;
      Route(f.parts).rawJson.Some? ==>
        Extract(req.(form := Some(f.(jsonField := json, dataField := data)))) == Extract(req)
    ensures var f := req.form.value;
      Route(f.parts).rawJson.None? && f.jsonField != [] ==>
        Extract(req) == Success(Extracted(f.jsonField, "", Route(f.parts).uploads))
    ensures var f := req.form.value;
      Route(f.parts).rawJson.None? && f.jsonField == [] ==>
        Extract(req) == (if f.dataField == [] then Failure(NoJsonData)
                         else Success(Extracted(f.dataField, "", Route(f.parts).uploads)))
  {
    RouteJsonPart(req.form.value.parts);
  }

  /** An empty `.json` part still counts as the payload: the form fields are not consulted and the request is rejected. */
  lemma EmptyJsonPartRejected(req: Request)
    requires HasPrefix(req.contentType, "multipart/") && req.form.Some?
    requires Route(req.form.value.parts).rawJson == Some([])
    ensures Extract(req) == Failure(NoJsonData)
  {
  }

  /** The image type of an uploaded file, from substrings of its lower-cased name. */
  function ImageTypeFor(filename: string): string
  {
    var lower := ToLower(filename);
    if Contains(lower, "lpup") || Contains(lower, "plate") then "plate"
    else if Contains(lower, "roi") || Contains(lower, "vehicle") then "vehicle"
    else "uploaded"
  }

  /** `lpup`/`plate` take precedence over `roi`/`vehicle`; anything else is `uploaded`. */
  lemma ImageTypePrecedence(filename: string)
    ensures var lower, t := ToLower(filename), ImageTypeFor(filename);
      && (t == "plate" <==> Contains(lower, "lpup") || Contains(lower, "plate"))
      && (t == "vehicle" <==> !Contains(lower, "lpup") && !Contains(lower, "plate")
                              && (Contains(lower, "roi") || Contains(lower, "vehicle")))
      && (t == "uploaded" <==> !Contains(lower, "lpup") && !Contains(lower, "plate")
                               && !Contains(lower, "roi") && !Contains(lower, "vehicle"))
  {
  }

  /** The type does not depend on the case of the name. */
  lemma ImageTypeCaseInsensitive(filename: string)
    ensures ImageTypeFor(ToLower(filename)) == ImageTypeFor(filename)
  {
    ToLowerIdempotent(filename);
  }

  /** The image type of an ImageArray entry: its ImageType, `embedded` when blank. */
  function EmbeddedType(imageType: string): (t: string)
    ensures t != ""
  {
    if imageType == "" then "embedded" else imageType
  }

  /** The extension of an ImageArray entry: its ImageFormat, `jpg` when blank. */
  function EmbeddedExt(imageFormat: string): (ext: string)
    ensures ext != ""
  {
    if imageFormat == "" then "jpg" else imageFormat
  }

  /** A blank ImageType or ImageFormat takes its default; a non-blank one is used as given. */
  lemma EmbeddedDefaults(imageType: string, imageFormat: string)
    ensures imageType == "" ==> EmbeddedType(imageType) == "embedded"
    ensures imageType != "" ==> EmbeddedType(imageType) == imageType
    ensures imageFormat == "" ==> EmbeddedExt(imageFormat) == "jpg"
    ensures imageFormat != "" ==> EmbeddedExt(imageFormat) == imageFormat
  {
  }
}
