/**
 * The pure helpers of the media service: resource-type classification, the
 * extension derived from a MIME type, the suffix and format of a locally
 * stored file, the data URI handed to the remote store, and the check that
 * an upload has at least one file.
 */
module MediaService {
  import opened Common
  import opened JsString
  import Base64
  import opened EnvConfig

  const NoFiles := HttpError(400, "Please attach at least one file")

  /** An uploaded file as the upload middleware hands it over. extension is
      what path.extname gives for the original name. */
  datatype UploadFile = UploadFile(
    extension: string,
    mimetype: Option<string>,
    buffer: seq<Base64.Byte>,
    size: Option<nat>)

  predicate IsResourceType(t: string) {
    t == "video" || t == "image" || t == "raw"
  }

  /** normalizeType: a resource type is kept, anything else becomes "raw". */
  function NormalizeType(value: Option<string>): (r: string)
    ensures IsResourceType(r)
    ensures value.Some? && IsResourceType(value.value) ==> r == value.value
    ensures !(value.Some? && IsResourceType(value.value)) ==> r == "raw"
  {
    if value.Some? && IsResourceType(value.value) then value.value else "raw"
  }

  lemma NormalizeTypeIdempotent(value: Option<string>)
    ensures NormalizeType(Some(NormalizeType(value))) == NormalizeType(value)
  {
  }

  /** typeFromMime: images and videos by their MIME prefix, everything else
      (a missing or empty type included) "raw". */
  function TypeFromMime(mime: Option<string>): (r: string)
    ensures r == (if mime.Some? && StartsWith(mime.value, "image/") then "image"
                  else if mime.Some? && StartsWith(mime.value, "video/") then "video"
                  else "raw")
  {
    if mime.None? || mime.value == "" then "raw"
    else if StartsWith(mime.value, "image/") then "image"
    else if StartsWith(mime.value, "video/") then "video"
    else "raw"
  }

  /** The classification from the MIME type is already normalized. */
  lemma TypeFromMimeIsNormal(mime: Option<string>)
    ensures NormalizeType(Some(TypeFromMime(mime))) == TypeFromMime(mime)
  {
  }

  /** What comes before the first '/' of rest (all of it when there is none). */
  function SegmentOf(rest: string): string {
    match IndexOf(rest, "/")
    case None => rest
    case Some(j) => rest[..j]
  }

  /** mime is pre, a '/', seg, and then nothing or another '/' and more,
      with no '/' in pre or seg. */
  predicate Cut(mime: string, pre: string, seg: string, post: string) {
    mime == pre + "/" + seg + post && '/' !in pre && '/' !in seg && (post == "" || post[0] == '/')
  }

  ghost predicate IsSecondSegment(mime: string, seg: string) {
    exists pre, post :: Cut(mime, pre, seg, post)
  }

  /** The segment between the first and the second '/' (or the end), which
      is what split("/")[1] gives. */
  function SecondSegment(mime: string): (r: Option<string>)
    ensures r.None? <==> '/' !in mime
    ensures r.Some? ==> IsSecondSegment(mime, r.value)
  {
    match IndexOf(mime, "/")
    case None =>
      IndexOfFirst(mime, "/");
      forall j | 0 <= j < |mime| ensures mime[j] != '/' {
        OccursAtChar(mime, '/', j);
      }
      None
    case Some(i) =>
      CutShape(mime, i);
      Some(SegmentOf(mime[i + 1..]))
  }

  lemma CutShape(mime: string, i: nat)
    requires IndexOf(mime, "/") == Some(i)
    ensures IsSecondSegment(mime, SegmentOf(mime[i + 1..]))
  {
    FirstSlash(mime, i);
    var rest := mime[i + 1..];
    var seg := SegmentOf(rest);
    SegmentFacts(rest, seg);
    CutAt(mime, i, seg);
  }

  /** The first '/' of mime is at i and there is none before it. */
  lemma FirstSlash(mime: string, i: nat)
    requires IndexOf(mime, "/") == Some(i)
    ensures i < |mime| && mime[i] == '/' && '/' !in mime[..i]
  {
    OccursAtChar(mime, '/', i);
    IndexOfFirst(mime, "/");
    forall j | 0 <= j < i ensures mime[..i][j] != '/' {
      OccursAtChar(mime, '/', j);
    }
  }

  /** A '/' at i with none before it, followed by a segment without '/' that
      ends the string or a '/', cuts mime. */
  lemma CutAt(mime: string, i: nat, seg: string)
    requires i < |mime| && mime[i] == '/' && '/' !in mime[..i]
    requires |seg| <= |mime| - i - 1 && seg == mime[i + 1..][..|seg|] && '/' !in seg
    requires mime[i + 1..][|seg|..] == "" || mime[i + 1..][|seg|..][0] == '/'
    ensures IsSecondSegment(mime, seg)
  {
    var pre, rest := mime[..i], mime[i + 1..];
    var post := rest[|seg|..];
    assert rest == seg + post;
    assert mime[i..] == "/" + rest;
    assert mime == pre + mime[i..];
    ConcatAssoc(pre, "/", seg, post);
    assert Cut(mime, pre, seg, post);
  }

  lemma ConcatAssoc(a: string, b: string, c: string, d: string)
    ensures a + b + c + d == a + (b + (c + d))
  {
  }

  lemma SegmentFacts(rest: string, seg: string)
    requires seg == SegmentOf(rest)
    ensures |seg| <= |rest| && seg == rest[..|seg|]
    ensures '/' !in seg && (rest[|seg|..] == "" || rest[|seg|..][0] == '/')
  {
    IndexOfFirst(rest, "/");
    match IndexOf(rest, "/")
    case None =>
      forall j | 0 <= j < |rest| ensures rest[j] != '/' {
        OccursAtChar(rest, '/', j);
      }
    case Some(j) =>
      OccursAtChar(rest, '/', j);
      forall k | 0 <= k < j ensures rest[k] != '/' {
        OccursAtChar(rest, '/', k);
      }
  }

  /** Cutting at the first '/' is unambiguous. */
  lemma SplitAtFirstSlash(a: string, b: string, c: string, d: string)
    requires a + "/" + b == c + "/" + d && '/' !in a && '/' !in c
    ensures a == c && b == d
  {
    var s := a + "/" + b;
    assert forall j :: 0 <= j < |a| ==> s[j] == a[j];
    assert forall j :: 0 <= j < |c| ==> s[j] == c[j];
    assert s[|a|] == '/' && s[|c|] == '/';
    assert |a| == |c|;
    assert a == s[..|a|] && c == s[..|c|];
    assert b == s[|a| + 1..] && d == s[|c| + 1..];
  }

  /** deriveExtensionFromMime: "." and the subtype, or "" when the MIME type
      is missing, has no '/', or has nothing after its first '/'. */
  function DeriveExtensionFromMime(mime: Option<string>): (r: string)
    ensures r == "" <==> mime.None? || '/' !in mime.value || SecondSegment(mime.value) == Some("")
    ensures r != "" ==> r == "." + SecondSegment(mime.value).value
  {
    if mime.None? || !Contains(mime.value, "/") then ""
    else
      var ext := SecondSegment(mime.value);
      if ext.None? || ext.value == "" then "" else "." + ext.value
  }

  /** The first segment after "type/" is the subtype. */
  lemma DeriveExtensionOfType(kind: string, subtype: string)
    requires '/' !in kind && '/' !in subtype && subtype != ""
    ensures DeriveExtensionFromMime(Some(kind + "/" + subtype)) == "." + subtype
  {
    var mime := kind + "/" + subtype;
    assert mime[|kind|] == '/';
    var seg := SecondSegment(mime);
    SecondSegmentOfCut(kind, subtype, seg.value);
  }

  /** The only second segment of "kind/subtype" is subtype. */
  lemma SecondSegmentOfCut(kind: string, subtype: string, seg: string)
    requires '/' !in kind && '/' !in subtype
    requires IsSecondSegment(kind + "/" + subtype, seg)
    ensures seg == subtype
  {
    var mime := kind + "/" + subtype;
    var pre, post :| Cut(mime, pre, seg, post);
    assert mime == pre + "/" + (seg + post);
    SplitAtFirstSlash(kind, subtype, pre, seg + post);
  }

  /** The suffix of a locally stored file: its own extension, or else the
      one derived from its MIME type. */
  function Suffix(file: UploadFile): string {
    if file.extension != "" then file.extension else DeriveExtensionFromMime(file.mimetype)
  }

  /** format: the suffix with its first "." removed, absent when that leaves nothing. */
  function Format(suffix: string): (r: Option<string>)
    ensures r.None? <==> ReplaceFirst(suffix, ".", "") == ""
    ensures StartsWith(suffix, ".") ==> r == (if |suffix| == 1 then None else Some(suffix[1..]))
  {
    ReplacePrefix(suffix, ".");
    var f := ReplaceFirst(suffix, ".", "");
    if f == "" then None else Some(f)
  }

  /** The record saveLocally returns for one file; stamp and uuid are the
      clock reading and random identifier for it. */
  datatype LocalResult = LocalResult(url: string, resourceType: string, publicId: string,
                                     bytes: nat, format: Option<string>)

  function LocalRecord(file: UploadFile, publicBaseUrl: string, stamp: nat, uuid: string): (r: LocalResult)
    ensures r.url == publicBaseUrl + "/uploads/" + r.publicId
    ensures EndsWith(r.publicId, Suffix(file))
    ensures IsResourceType(r.resourceType) && r.resourceType == TypeFromMime(file.mimetype)
    ensures r.bytes == if file.size.Some? then file.size.value else |file.buffer|
    ensures r.format == Format(Suffix(file))
  {
    var suffix := Suffix(file);
    var filename := NatToString(stamp) + "-" + uuid + suffix;
    assert filename[|filename| - |suffix|..] == suffix;
    LocalResult(publicBaseUrl + "/uploads/" + filename, TypeFromMime(file.mimetype), filename,
                if file.size.Some? then file.size.value else |file.buffer|, Format(suffix))
  }

  /** toDataUri. */
  function ToDataUri(mimetype: string, buffer: seq<Base64.Byte>): string {
    "data:" + mimetype + ";base64," + Base64.Encode(buffer)
  }

  /** Reading a base64 data URI back: the media type and the bytes. */
  function ParseDataUri(uri: string): Option<(string, seq<Base64.Byte>)> {
    if !StartsWith(uri, "data:") then None
    else
      var rest := uri[5..];
      match IndexOf(rest, ";base64,")
      case None => None
      case Some(i) =>
        match Base64.Decode(rest[i + 8..])
        case None => None
        case Some(bytes) => Some((rest[..i], bytes))
  }

  /** The data URI of a file gives back its media type and its bytes, for a
      media type without parameters (no ';'). */
  lemma DataUriRoundTrip(mimetype: string, buffer: seq<Base64.Byte>)
    requires ';' !in mimetype
    ensures ParseDataUri(ToDataUri(mimetype, buffer)) == Some((mimetype, buffer))
  {
    var uri := ToDataUri(mimetype, buffer);
    assert StartsWith(uri, "data:");
    var rest := uri[5..];
    var enc := Base64.Encode(buffer);
    assert rest == mimetype + ";base64," + enc;
    assert OccursAt(rest, ";base64,", |mimetype|);
    forall j | 0 <= j < |mimetype| ensures !OccursAt(rest, ";base64,", j) {
      assert rest[j] == mimetype[j];
    }
    IndexOfIs(rest, ";base64,", |mimetype|);
    assert rest[|mimetype| + 8..] == enc;
    assert rest[..|mimetype|] == mimetype;
    Base64.DecodeEncode(buffer);
  }

  /** Where uploadMediaFiles sends the files. */
  datatype UploadPlan = SaveLocally(files: seq<UploadFile>) | UploadRemotely(dataUris: seq<string>)

  /** uploadMediaFiles up to the point where storage is used: an empty list
      is refused before anything is stored. */
  function UploadMediaFiles(files: seq<UploadFile>, storage: StorageDriver): (r: Result<UploadPlan>)
    ensures r.Err? <==> files == []
    ensures r.Err? ==> r.error == NoFiles
    ensures r.Ok? && storage == Local ==> r.value == SaveLocally(files)
    ensures r.Ok? && storage == Cloudinary ==>
              r.value.UploadRemotely? && |r.value.dataUris| == |files|
              && forall i :: 0 <= i < |files| && files[i].mimetype.Some? ==>
                   r.value.dataUris[i] == ToDataUri(files[i].mimetype.value, files[i].buffer)
  {
    if |files| == 0 then Err(NoFiles)
    else if storage == Local then Ok(SaveLocally(files))
    else Ok(UploadRemotely(seq(|files|, i requires 0 <= i < |files| =>
                                 ToDataUri(if files[i].mimetype.Some? then files[i].mimetype.value else "undefined",
                                           files[i].buffer))))
  }
}
