/**
 * On-disk names built by HandleAPI. Every name starts with the id the database just
 * assigned, followed by '_', so the id can be read back from the name and two rows
 * never share a file name.
 */
module Naming {
  import opened Strings
  import opened Sanitize

  /** The plate part of generated names: the sanitized plate, `unknown` when that is empty. */
  function SafePlate(plate: string): string
  {
    var s := SanitizeFilename(plate);
    if s == "" then "unknown" else s
  }

  /** The plate part is never empty, holds only safe runes, and is `unknown` exactly for an empty plate. */
  lemma SafePlateSafe(plate: string)
    ensures SafePlate(plate) != "" && AllSafe(SafePlate(plate))
    ensures plate == "" ==> SafePlate(plate) == "unknown"
    ensures plate != "" ==> SafePlate(plate) == SanitizeFilename(plate)
  {
    SanitizedIsSafe(plate);
    SanitizeEmptyIff(plate);
  }

  /** `name` starts with the decimal id and an underscore. */
  predicate NamedAfter(name: string, id: nat)
  {
    HasPrefix(name, Decimal(id) + "_")
  }

  /** The position of the first '_' (the length when there is none). */
  function FirstUnderscore(s: string): (k: nat)
    ensures k <= |s|
  {
    if s == [] || s[0] == '_' then 0 else 1 + FirstUnderscore(s[1..])
  }

  /** The id a disk name starts with: the digits before the first '_'. */
  function IdOfName(name: string): int
  {
    ParseDecimal(name[..FirstUnderscore(name)])
  }

  lemma {:induction false} FirstUnderscoreAfterDigits(d: string, rest: string)
    requires forall i :: 0 <= i < |d| ==> IsDigit(d[i])
    ensures FirstUnderscore(d + "_" + rest) == |d|
    decreases |d|
  {
    if d != [] {
      assert (d + "_" + rest)[1..] == d[1..] + "_" + rest;
      FirstUnderscoreAfterDigits(d[1..], rest);
    }
  }

  /** The id is read back from any name made after it. */
  lemma IdOfNamedAfter(name: string, id: nat)
    requires NamedAfter(name, id)
    ensures IdOfName(name) == id
  {
    var d := Decimal(id);
    var rest := name[|d| + 1..];
    assert name == d + "_" + rest;
    DecimalDigits(id);
    FirstUnderscoreAfterDigits(d, rest);
    assert name[..|d|] == d;
    DecimalRoundTrip(id);
  }

  /** Names made after different ids differ. */
  lemma DistinctIdsDistinctNames(n1: string, id1: nat, n2: string, id2: nat)
    requires NamedAfter(n1, id1) && NamedAfter(n2, id2) && id1 != id2
    ensures n1 != n2
  {
    IdOfNamedAfter(n1, id1);
    IdOfNamedAfter(n2, id2);
  }

  /** The payload file: `{eventID}_{sanitized original}`, or `{eventID}_{safePlate}.json` without one. */
  function JsonDiskName(eventId: nat, jsonName: string, plate: string): string
  {
    if jsonName == "" then Decimal(eventId) + "_" + SafePlate(plate) + ".json"
    else Decimal(eventId) + "_" + SanitizeFilename(jsonName)
  }

  /** An uploaded image file: `{imageID}_{sanitized name}`, or `{imageID}_{safePlate}_{index}.jpg` when that name is empty. */
  function UploadedDiskName(imageId: nat, filename: string, plate: string, index: nat): string
  {
    var d := Decimal(imageId) + "_" + SanitizeFilename(filename);
    if d == Decimal(imageId) + "_" then Decimal(imageId) + "_" + SafePlate(plate) + "_" + Decimal(index) + ".jpg"
    else d
  }

  /** Digits and '_' are safe runes, so a decimal id followed by '_' and safe runes is safe. */
  lemma IdPrefixSafe(id: nat, rest: string)
    requires AllSafe(rest)
    ensures AllSafe(Decimal(id) + "_" + rest)
  {
    DecimalDigits(id);
  }

  /** The payload file is named after its event and holds only safe runes. */
  lemma JsonDiskNameSafe(eventId: nat, jsonName: string, plate: string)
    ensures NamedAfter(JsonDiskName(eventId, jsonName, plate), eventId)
    ensures AllSafe(JsonDiskName(eventId, jsonName, plate))
  {
    SanitizedIsSafe(jsonName);
    SafePlateSafe(plate);
    IdPrefixSafe(eventId, SanitizeFilename(jsonName));
    var tail := SafePlate(plate) + ".json";
    assert AllSafe(tail);
    IdPrefixSafe(eventId, tail);
    assert Decimal(eventId) + "_" + SafePlate(plate) + ".json" == Decimal(eventId) + "_" + tail;
  }

  /** An uploaded image file is named after its image row and holds only safe runes. */
  lemma UploadedDiskNameSafe(imageId: nat, filename: string, plate: string, index: nat)
    ensures NamedAfter(UploadedDiskName(imageId, filename, plate, index), imageId)
    ensures AllSafe(UploadedDiskName(imageId, filename, plate, index))
  {
    SanitizedIsSafe(filename);
    SafePlateSafe(plate);
    DecimalDigits(index);
    var tail := SafePlate(plate) + "_" + Decimal(index) + ".jpg";
    assert AllSafe(tail);
    IdPrefixSafe(imageId, SanitizeFilename(filename));
    IdPrefixSafe(imageId, tail);
    assert Decimal(imageId) + "_" + SafePlate(plate) + "_" + Decimal(index) + ".jpg" == Decimal(imageId) + "_" + tail;
  }

  /** An uploaded file always has a non-empty name, so the fallback name is never used. */
  lemma UploadedFallbackUnreachable(imageId: nat, filename: string, plate: string, index: nat)
    requires filename != ""
    ensures UploadedDiskName(imageId, filename, plate, index) == Decimal(imageId) + "_" + SanitizeFilename(filename)
  {
    var d := Decimal(imageId) + "_" + SanitizeFilename(filename);
    assert |d| == |Decimal(imageId)| + 1 + |filename|;
  }

  /** The Filename column of an embedded image: `{type}_{index}.{ext}`. */
  function EmbeddedFilename(imageType: string, ext: string, index: nat): string
  {
    imageType + "_" + Decimal(index) + "." + ext
  }

  /** An embedded image file: `{imageID}_{safePlate}_{type}.{ext}`; only the plate is sanitized. */
  function EmbeddedDiskName(imageId: nat, plate: string, imageType: string, ext: string): string
  {
    Decimal(imageId) + "_" + SafePlate(plate) + "_" + imageType + "." + ext
  }

  /** An embedded image file is named after its image row. */
  lemma EmbeddedDiskNameNamedAfter(imageId: nat, plate: string, imageType: string, ext: string)
    ensures NamedAfter(EmbeddedDiskName(imageId, plate, imageType, ext), imageId)
  {
  }

  /** The type and format of an embedded image reach its disk name unsanitized, path separators included. */
  lemma EmbeddedNameMayHoldSeparator()
    ensures exists i :: 0 <= i < |EmbeddedDiskName(7, "AB1", "../x", "jpg")| && EmbeddedDiskName(7, "AB1", "../x", "jpg")[i] == '/'
  {
    var n := EmbeddedDiskName(7, "AB1", "../x", "jpg");
    assert SafePlate("AB1") == "AB1";
    assert n == "7_AB1_../x.jpg";
    assert n[8] == '/';
  }
}
