/**
  Google Storage paths of Chrome OS release builds: the URIs of a build, its
  images and its update payloads, the parser that recovers a payload's build
  and images from its URI, and the ordering of version strings.

  Python's `None` is `Option.None`; a string argument that may be `None` is an
  `Option<string>`. The random string a payload name carries is a parameter
  (it is generated from a clock and MD5 when the caller gives none).
*/
module GsPaths {
  import opened Wrappers
  import opened Strings

  /** A build: where it lives in a bucket. */
  datatype Build = Build(bucket: string, channel: string, board: string, version: string)

  /** An image of a build. Channel and version are `None` when they are the build's own. */
  datatype Image = Image(
    build: Build,
    imageType: string,
    key: Option<string>,
    imageChannel: Option<string>,
    imageVersion: Option<string>,
    uri: Option<string>)

  /** An update payload from `srcImage` (none for a full payload) to `tgtImage`. */
  datatype Payload = Payload(
    tgtImage: Image,
    srcImage: Option<Image>,
    build: Build,
    uri: Option<string>,
    alreadyExists: bool)

  const DefaultImageType := "recovery"
  const ReleasesBucket := "chromeos-releases"
  const Lock := "LOCK"
  const Flags := [Lock]

  /** Python truthiness of an optional string: present and not empty. */
  predicate Truthy(s: Option<string>) {
    s.Some? && s.value != ""
  }

  /** The value, or `default` when it is falsy. */
  function OrIfFalsy(s: Option<string>, default: string): string {
    if Truthy(s) then s.value else default
  }

  /** A field that equals the default it would take is stored as `None`. */
  function ClearIfDefault(value: Option<string>, default: string): (r: Option<string>)
    ensures r != Some(default)
    ensures r.GetOr(default) == value.GetOr(default)
  {
    if value == Some(default) then None else value
  }

  /**
    `Image(...)`: channel and version equal to the build's are cleared, and a
    falsy image type becomes "recovery". Clearing loses nothing: the effective
    channel and version are those given.
  */
  function NewImage(build: Build, imageType: Option<string>, key: Option<string>,
                    imageChannel: Option<string>, imageVersion: Option<string>,
                    uri: Option<string>): (img: Image)
    ensures img.build == build && img.key == key && img.uri == uri
    ensures img.imageChannel != Some(build.channel) && img.imageVersion != Some(build.version)
    ensures img.imageChannel.GetOr(build.channel) == imageChannel.GetOr(build.channel)
    ensures img.imageVersion.GetOr(build.version) == imageVersion.GetOr(build.version)
    ensures img.imageType == OrIfFalsy(imageType, DefaultImageType) && img.imageType != ""
  {
    Image(build, OrIfFalsy(imageType, DefaultImageType), key,
          ClearIfDefault(imageChannel, build.channel),
          ClearIfDefault(imageVersion, build.version), uri)
  }

  /** Constructing an image from the fields of a constructed image changes nothing. */
  lemma NewImageIdempotent(build: Build, imageType: Option<string>, key: Option<string>,
                           imageChannel: Option<string>, imageVersion: Option<string>,
                           uri: Option<string>)
    ensures var img := NewImage(build, imageType, key, imageChannel, imageVersion, uri);
      NewImage(img.build, Some(img.imageType), img.key, img.imageChannel, img.imageVersion, img.uri) == img
  {
  }

  /** `Payload(...)`: without an explicit build the target image's build is used. */
  function NewPayload(tgtImage: Image, srcImage: Option<Image>, uri: Option<string>): (p: Payload)
    ensures p.tgtImage == tgtImage && p.srcImage == srcImage && p.uri == uri
    ensures p.build == tgtImage.build && !p.alreadyExists
  {
    Payload(tgtImage, srcImage, tgtImage.build, uri, false)
  }

  // ---------------------------------------------------------------------------
  // URI builders.

  /** The segments of a build's URI after "gs://". */
  function BuildSegments(b: Build): seq<string> {
    [b.bucket, b.channel, b.board, b.version]
  }

  /** "gs://bucket/channel/board/version". */
  function BuildUri(b: Build): string {
    "gs://" + Join(BuildSegments(b), "/")
  }

  /** A URI component that cannot be mistaken for a separator. */
  predicate Segment(s: string) {
    '/' !in s
  }

  /** With no '/' in its fields, a build URI splits back into the build. */
  lemma BuildUriSplits(b: Build)
    requires Segment(b.bucket) && Segment(b.channel) && Segment(b.board) && Segment(b.version)
    ensures StartsWith(BuildUri(b), "gs://")
    ensures Split(BuildUri(b)[5..], '/') == BuildSegments(b)
  {
    assert BuildUri(b)[5..] == Join(BuildSegments(b), "/");
    SplitJoin(BuildSegments(b), '/');
  }

  function BuildPayloadsUri(b: Build): string {
    PathJoin(BuildUri(b), "payloads")
  }

  function BuildPayloadsSigningUri(b: Build): string {
    PathJoin(BuildPayloadsUri(b), "signing")
  }

  /** The URI of a build flag; only the flags in `Flags` are accepted. */
  function BuildPayloadsFlagUri(b: Build, flag: string): (r: Result<string, string>)
    ensures r.Success? <==> flag in Flags
  {
    if flag !in Flags then Failure("AssertionError")
    else Success(PathJoin(BuildPayloadsUri(b), flag + "_flag"))
  }

  /** A version that does not end the build URI with a separator. */
  predicate PlainVersion(b: Build) {
    b.version != "" && b.version[|b.version| - 1] != '/'
  }

  lemma BuildUriNoTrailingSlash(b: Build)
    requires PlainVersion(b)
    ensures !EndsWith(BuildUri(b), "/") && BuildUri(b) != ""
  {
    JoinEndsWithLast(BuildSegments(b), "/");
    var u := BuildUri(b);
    var j := Join(BuildSegments(b), "/");
    assert u[|u| - 1] == j[|j| - 1] == b.version[|b.version| - 1];
  }

  /** The payload, signing and flag URIs of a build each add one segment under the build URI. */
  lemma PayloadsUrisNest(b: Build)
    requires PlainVersion(b)
    ensures BuildPayloadsUri(b) == BuildUri(b) + "/payloads"
    ensures BuildPayloadsSigningUri(b) == BuildUri(b) + "/payloads/signing"
    ensures BuildPayloadsFlagUri(b, Lock) == Success(BuildUri(b) + "/payloads/LOCK_flag")
  {
    BuildUriNoTrailingSlash(b);
    var p := BuildPayloadsUri(b);
    assert p[|p| - 1] == 's';
    assert Lock + "_flag" == "LOCK_flag" && Lock in Flags;
    assert p + "/" + "LOCK_flag" == BuildUri(b) + "/payloads/LOCK_flag";
  }

  /** "chromeos_<version>_<board>_<type>_<channel>_<key>.bin". */
  function ImageName(channel: string, board: string, version: string, key: string,
                     imageType: string): string
  {
    "chromeos_" + Join([version, board, imageType, channel, key + ".bin"], "_")
  }

  /** An image's URI; a falsy image channel or version is replaced by the build's. */
  function ImageUri(b: Build, key: string, imageType: string,
                    imageChannel: Option<string>, imageVersion: Option<string>): string
  {
    PathJoin(BuildUri(b),
             ImageName(OrIfFalsy(imageChannel, b.channel), b.board,
                       OrIfFalsy(imageVersion, b.version), key, imageType))
  }

  /** An empty image channel or version counts as absent in an image URI. */
  lemma ImageUriEmptyIsDefault(b: Build, key: string, imageType: string)
    ensures ImageUri(b, key, imageType, Some(""), Some(""))
         == ImageUri(b, key, imageType, None, None)
         == ImageUri(b, key, imageType, Some(b.channel), Some(b.version))
  {
  }

  function DLCImageName(): string {
    "dlc.img"
  }

  /** "ChromeOS-<type>-<milestone>-<version>-<board>.tar.xz". */
  function UnsignedImageArchiveName(board: string, version: string, milestone: string,
                                    imageType: string): string
  {
    "ChromeOS-" + imageType + "-" + milestone + "-" + version + "-" + board + ".tar.xz"
  }

  /** The URI of a build's unsigned image archive. */
  function UnsignedImageUri(b: Build, milestone: string, imageType: string): string {
    PathJoin(BuildUri(b), UnsignedImageArchiveName(b.board, b.version, milestone, imageType))
  }

  /** The glob of a build's DLC images: "dlc/<id>/<package>/dlc.img" under the build, with both folders wild. */
  function DLCImagesUri(b: Build): string {
    PathJoinAll(BuildUri(b), ["dlc", "*", "*", DLCImageName()])
  }

  /** A build URI with a plain version ends in something other than '/'. */
  lemma BuildUriIsFolder(b: Build)
    requires PlainVersion(b)
    ensures BuildUri(b) != "" && BuildUri(b)[|BuildUri(b)| - 1] != '/'
  {
    BuildUriNoTrailingSlash(b);
    var u := BuildUri(b);
    assert u[|u| - 1..] != "/" ==> u[|u| - 1] != '/';
  }

  /** The signed, unsigned and DLC image URIs each add their file under the build URI. */
  lemma ImageUrisNest(b: Build, key: string, imageType: string, milestone: string,
                      imageChannel: Option<string>, imageVersion: Option<string>)
    requires PlainVersion(b)
    ensures ImageUri(b, key, imageType, imageChannel, imageVersion)
         == BuildUri(b) + "/" + ImageName(OrIfFalsy(imageChannel, b.channel), b.board,
                                          OrIfFalsy(imageVersion, b.version), key, imageType)
    ensures UnsignedImageUri(b, milestone, imageType)
         == BuildUri(b) + "/" + UnsignedImageArchiveName(b.board, b.version, milestone, imageType)
    ensures EndsWith(UnsignedImageUri(b, milestone, imageType), ".tar.xz")
    ensures DLCImagesUri(b) == BuildUri(b) + "/" + "dlc/*/*/dlc.img"
  {
    BuildUriIsFolder(b);
    var u := BuildUri(b);
    var image := ImageName(OrIfFalsy(imageChannel, b.channel), b.board,
                           OrIfFalsy(imageVersion, b.version), key, imageType);
    PathJoinUnder(u, image);
    UnsignedImageUriNests(b, milestone, imageType);
    DLCImagesUriUnder(u);
  }

  lemma DLCImagesUriUnder(u: string)
    requires u != "" && u[|u| - 1] != '/'
    ensures PathJoinAll(u, ["dlc", "*", "*", DLCImageName()]) == u + "/" + "dlc/*/*/dlc.img"
  {
    DLCImagePartsPlain();
    PathJoinAllUnder(u, ["dlc", "*", "*", "dlc.img"]);
    DLCImagesTail();
  }

  lemma DLCImagePartsPlain()
    ensures var parts := ["dlc", "*", "*", "dlc.img"];
      forall i :: 0 <= i < |parts| - 1 ==> PlainSegment(parts[i])
  {
    var parts := ["dlc", "*", "*", "dlc.img"];
    forall i | 0 <= i < |parts| - 1
      ensures PlainSegment(parts[i])
    {
      if i == 0 {
        assert parts[0] == "dlc";
      } else {
        assert parts[i] == "*";
      }
    }
  }

  lemma DLCImagesTail()
    ensures Join(["dlc", "*", "*", "dlc.img"], "/") == "dlc/*/*/dlc.img"
  {
    JoinFour("dlc", "*", "*", "dlc.img", "/");
  }

  lemma UnsignedImageUriNests(b: Build, milestone: string, imageType: string)
    requires BuildUri(b) != "" && BuildUri(b)[|BuildUri(b)| - 1] != '/'
    ensures UnsignedImageUri(b, milestone, imageType)
         == BuildUri(b) + "/" + UnsignedImageArchiveName(b.board, b.version, milestone, imageType)
    ensures EndsWith(UnsignedImageUri(b, milestone, imageType), ".tar.xz")
  {
    var u := BuildUri(b);
    var head := "ChromeOS-" + imageType + "-" + milestone + "-" + b.version + "-" + b.board;
    var archive := UnsignedImageArchiveName(b.board, b.version, milestone, imageType);
    assert archive == head + ".tar.xz";
    PathJoinUnder(u, archive);
    assert u + "/" + archive == (u + "/" + head) + ".tar.xz";
    EndsWithAppend(u + "/" + head, ".tar.xz");
  }

  /** The first field of a payload name: the target version, after "<source version>-" for a delta. */
  function FirstNameField(version: string, srcVersion: Option<string>): string {
    if Truthy(srcVersion) then srcVersion.value + "-" + version else version
  }

  function Marker(srcVersion: Option<string>): string {
    if Truthy(srcVersion) then "delta" else "full"
  }

  /**
    "chromeos_<version>_<board>_<channel>_full_<key>.bin-<random>[.signed]", or
    with "<src_version>-<version>" and "delta" for a delta payload. Without a
    key the payload is unsigned and `unsignedImageType` takes the key's place.
  */
  function PayloadName(channel: string, board: string, version: string, key: Option<string>,
                       randomStr: string, srcVersion: Option<string>,
                       unsignedImageType: string): string
  {
    var signedExt := if key.None? then "" else ".signed";
    var keyField := if key.None? then unsignedImageType else key.value;
    "chromeos_" + Join([FirstNameField(version, srcVersion), board, channel, Marker(srcVersion),
                        keyField + ".bin-" + randomStr + signedExt], "_")
  }

  /**
    "dlc_<id>_<package>_<version>_<board>_<channel>_full.bin-<random>[.signed]",
    or with "<src_version>-<version>" and "delta" for a delta payload.
  */
  function DLCPayloadName(channel: string, board: string, version: string, dlcId: string,
                          dlcPackage: string, randomStr: string, srcVersion: Option<string>,
                          sign: bool): string
  {
    var signedExt := if sign then ".signed" else "";
    "dlc_" + Join([dlcId, dlcPackage, FirstNameField(version, srcVersion), board, channel,
                   Marker(srcVersion) + ".bin-" + randomStr + signedExt], "_")
  }

  /** A payload's URI; only an absent (not an empty) image channel or version is replaced by the build's. */
  function PayloadUri(b: Build, randomStr: string, key: Option<string>,
                      imageChannel: Option<string>, imageVersion: Option<string>,
                      srcVersion: Option<string>): string
  {
    PathJoin(BuildPayloadsUri(b),
             PayloadName(imageChannel.GetOr(b.channel), b.board, imageVersion.GetOr(b.version),
                         key, randomStr, srcVersion, "test"))
  }

  /** A DLC payload lives under "payloads/dlc/<id>/<package>". */
  function DLCPayloadUri(b: Build, randomStr: string, dlcId: string, dlcPackage: string,
                         imageChannel: Option<string>, imageVersion: Option<string>,
                         srcVersion: Option<string>): string
  {
    PathJoinAll(BuildPayloadsUri(b),
                ["dlc", dlcId, dlcPackage,
                 DLCPayloadName(imageChannel.GetOr(b.channel), b.board,
                                imageVersion.GetOr(b.version), dlcId, dlcPackage,
                                randomStr, srcVersion, true)])
  }

  /** A DLC payload's URI is "<payloads>/dlc/<id>/<package>/" and its signed name, so it ends in ".signed". */
  lemma DLCPayloadUriShape(b: Build, randomStr: string, dlcId: string, dlcPackage: string,
                           imageChannel: Option<string>, imageVersion: Option<string>,
                           srcVersion: Option<string>)
    requires PlainVersion(b) && PlainSegment(dlcId) && PlainSegment(dlcPackage)
    ensures DLCPayloadUri(b, randomStr, dlcId, dlcPackage, imageChannel, imageVersion, srcVersion)
         == BuildPayloadsUri(b) + "/" + ("dlc" + "/" + (dlcId + "/" + (dlcPackage + "/"
            + DLCPayloadName(imageChannel.GetOr(b.channel), b.board, imageVersion.GetOr(b.version),
                             dlcId, dlcPackage, randomStr, srcVersion, true))))
    ensures EndsWith(DLCPayloadUri(b, randomStr, dlcId, dlcPackage, imageChannel, imageVersion, srcVersion), ".signed")
  {
    PayloadsUriIsFolder(b);
    SignedDLCPayloadName(imageChannel.GetOr(b.channel), b.board, imageVersion.GetOr(b.version),
                         dlcId, dlcPackage, randomStr, srcVersion);
    DLCFileUnder(BuildPayloadsUri(b), dlcId, dlcPackage,
                 DLCPayloadName(imageChannel.GetOr(b.channel), b.board, imageVersion.GetOr(b.version),
                                dlcId, dlcPackage, randomStr, srcVersion, true));
  }

  lemma PayloadsUriIsFolder(b: Build)
    requires PlainVersion(b)
    ensures BuildPayloadsUri(b) != "" && BuildPayloadsUri(b)[|BuildPayloadsUri(b)| - 1] != '/'
  {
    PayloadsUrisNest(b);
  }

  /** A signed file under "dlc/<id>/<package>" of a folder. */
  lemma DLCFileUnder(p: string, dlcId: string, dlcPackage: string, name: string)
    requires p != "" && p[|p| - 1] != '/' && PlainSegment(dlcId) && PlainSegment(dlcPackage)
    requires name != "" && name[0] != '/' && EndsWith(name, ".signed")
    ensures PathJoinAll(p, ["dlc", dlcId, dlcPackage, name]) == p + "/" + ("dlc" + "/" + (dlcId + "/" + (dlcPackage + "/" + name)))
    ensures EndsWith(PathJoinAll(p, ["dlc", dlcId, dlcPackage, name]), ".signed")
  {
    DLCFolderPlain(dlcId, dlcPackage, name);
    PathJoinAllUnder(p, ["dlc", dlcId, dlcPackage, name]);
    JoinFour("dlc", dlcId, dlcPackage, name, "/");
    PathJoinAllEndsWithLast(p, ["dlc", dlcId, dlcPackage, name]);
    EndsWithTransitive(PathJoinAll(p, ["dlc", dlcId, dlcPackage, name]), name, ".signed");
  }

  lemma DLCFolderPlain(dlcId: string, dlcPackage: string, name: string)
    requires PlainSegment(dlcId) && PlainSegment(dlcPackage)
    ensures var parts := ["dlc", dlcId, dlcPackage, name];
      forall i :: 0 <= i < |parts| - 1 ==> PlainSegment(parts[i])
  {
    var parts := ["dlc", dlcId, dlcPackage, name];
    forall i | 0 <= i < |parts| - 1
      ensures PlainSegment(parts[i])
    {
      if i == 0 {
        assert parts[0] == "dlc";
      } else if i == 1 {
        assert parts[1] == dlcId;
      } else {
        assert parts[2] == dlcPackage;
      }
    }
  }

  /** A signed DLC payload name starts with "dlc_" and ends in ".signed". */
  lemma SignedDLCPayloadName(channel: string, board: string, version: string, dlcId: string,
                             dlcPackage: string, randomStr: string, srcVersion: Option<string>)
    ensures var name := DLCPayloadName(channel, board, version, dlcId, dlcPackage, randomStr, srcVersion, true);
      name[0] == 'd' && EndsWith(name, ".signed")
  {
    var last := Marker(srcVersion) + ".bin-" + randomStr + ".signed";
    var fields := [dlcId, dlcPackage, FirstNameField(version, srcVersion), board, channel, last];
    assert DLCPayloadName(channel, board, version, dlcId, dlcPackage, randomStr, srcVersion, true)
        == "dlc_" + Join(fields, "_");
    NameEndsWithLast("dlc_", fields);
    EndsWithAppend(Marker(srcVersion) + ".bin-" + randomStr, ".signed");
    EndsWithTransitive("dlc_" + Join(fields, "_"), last, ".signed");
  }

  /** Unlike an image URI, a payload URI keeps an empty image channel: it is not the build's channel. */
  lemma PayloadUriKeepsEmptyChannel(b: Build, randomStr: string, key: Option<string>,
                                    imageVersion: Option<string>, srcVersion: Option<string>)
    requires b.channel != ""
    ensures PayloadUri(b, randomStr, key, Some(""), imageVersion, srcVersion)
         != PayloadUri(b, randomStr, key, None, imageVersion, srcVersion)
  {
    var iv := imageVersion.GetOr(b.version);
    var empty := PayloadName("", b.board, iv, key, randomStr, srcVersion, "test");
    var given := PayloadName(b.channel, b.board, iv, key, randomStr, srcVersion, "test");
    var first := FirstNameField(iv, srcVersion);
    var last := (if key.None? then "test" else key.value) + ".bin-" + randomStr
                + (if key.None? then "" else ".signed");
    JoinFive(first, b.board, "", Marker(srcVersion), last);
    JoinFive(first, b.board, b.channel, Marker(srcVersion), last);
    assert |given| == |empty| + |b.channel|;
    assert given[0] == empty[0] == 'c';
    assert |PathJoin(BuildPayloadsUri(b), given)| == |PathJoin(BuildPayloadsUri(b), empty)| + |b.channel|;
  }

  /** A name built as a prefix and '_'-joined fields ends with its last field. */
  lemma NameEndsWithLast(prefix: string, parts: seq<string>)
    requires |parts| >= 1
    ensures EndsWith(prefix + Join(parts, "_"), parts[|parts| - 1])
  {
    JoinEndsWithLast(parts, "_");
    EndsWithAppend(prefix, Join(parts, "_"));
    EndsWithTransitive(prefix + Join(parts, "_"), Join(parts, "_"), parts[|parts| - 1]);
  }

  /** With a hex random string, "<head>.bin-<hex>[.signed]" ends in ".signed" exactly when signed. */
  lemma SignedIffSuffix(s: string, head: string, randomStr: string, signed: bool)
    requires IsHex(randomStr)
    requires EndsWith(s, head + ".bin-" + randomStr + (if signed then ".signed" else ""))
    ensures EndsWith(s, ".signed") <==> signed
  {
    var last := head + ".bin-" + randomStr + (if signed then ".signed" else "");
    if signed {
      EndsWithAppend(head + ".bin-" + randomStr, ".signed");
      EndsWithTransitive(s, last, ".signed");
    } else {
      assert last == head + (".bin-" + randomStr);
      EndsWithAppend(head, ".bin-" + randomStr);
      EndsWithTransitive(s, last, ".bin-" + randomStr);
      HexEndingIsNotSigned(s, randomStr);
    }
  }

  /** A payload name ends in ".signed" exactly when a key is given. */
  lemma PayloadNameSignedIffKey(channel: string, board: string, version: string, key: Option<string>,
                                randomStr: string, srcVersion: Option<string>, unsignedImageType: string)
    requires IsHex(randomStr)
    ensures var name := PayloadName(channel, board, version, key, randomStr, srcVersion, unsignedImageType);
      EndsWith(name, ".signed") <==> key.Some?
  {
    var keyField := if key.None? then unsignedImageType else key.value;
    var last := keyField + ".bin-" + randomStr + (if key.Some? then ".signed" else "");
    NameEndsWithLast("chromeos_", [FirstNameField(version, srcVersion), board, channel, Marker(srcVersion), last]);
    SignedIffSuffix(PayloadName(channel, board, version, key, randomStr, srcVersion, unsignedImageType),
                    keyField, randomStr, key.Some?);
  }

  /** A DLC payload name ends in ".signed" exactly when signing is asked for. */
  lemma DLCPayloadNameSignedIffSign(channel: string, board: string, version: string, dlcId: string,
                                    dlcPackage: string, randomStr: string, srcVersion: Option<string>,
                                    sign: bool)
    requires IsHex(randomStr)
    ensures var name := DLCPayloadName(channel, board, version, dlcId, dlcPackage, randomStr, srcVersion, sign);
      EndsWith(name, ".signed") <==> sign
  {
    var last := Marker(srcVersion) + ".bin-" + randomStr + (if sign then ".signed" else "");
    NameEndsWithLast("dlc_", [dlcId, dlcPackage, FirstNameField(version, srcVersion), board, channel, last]);
    SignedIffSuffix(DLCPayloadName(channel, board, version, dlcId, dlcPackage, randomStr, srcVersion, sign),
                    Marker(srcVersion), randomStr, sign);
  }

  // ---------------------------------------------------------------------------
  // Parsing payload URIs.
  //
  // The two payload regexes are matched segment by segment. This is exact for
  // URIs with five '/' after "gs://", where no `.*` group can take a '/'.

  predicate IsHexDigit(c: char) {
    '0' <= c <= '9' || 'a' <= c <= 'f' || 'A' <= c <= 'F'
  }

  predicate IsHex(s: string) {
    forall i :: 0 <= i < |s| ==> IsHexDigit(s[i])
  }

  /** The largest index below `hi` that holds `c`. */
  function LastIndexBelow(s: string, c: char, hi: nat): (r: Option<nat>)
    requires hi <= |s|
    ensures r.Some? ==> r.value < hi && s[r.value] == c && forall j :: r.value < j < hi ==> s[j] != c
    ensures r.None? ==> forall j :: 0 <= j < hi ==> s[j] != c
  {
    if hi == 0 then None
    else if s[hi - 1] == c then Some(hi - 1)
    else LastIndexBelow(s, c, hi - 1)
  }

  lemma {:induction false} LastIndexBelowIs(s: string, c: char, hi: nat, k: nat)
    requires k < hi <= |s| && s[k] == c
    requires forall j :: k < j < hi ==> s[j] != c
    ensures LastIndexBelow(s, c, hi) == Some(k)
    decreases hi
  {
    if hi - 1 != k {
      LastIndexBelowIs(s, c, hi - 1, k);
    }
  }

  /** `$` matches at the very end and also before a final newline. */
  function DropFinalNewline(s: string): string {
    if |s| > 0 && s[|s| - 1] == '\n' then s[..|s| - 1] else s
  }

  /**
    "<key>.bin-<hex>.signed" with a non-empty key and non-empty hex: the key.
    The hex digits hold no '-', so the '-' after ".bin" is the last one.
  */
  function ParseSignedTail(t: string): (key: Option<string>)
    ensures key.Some? ==> EndsWith(t, ".signed")
  {
    if !EndsWith(t, ".signed") then None
    else
      var u := t[..|t| - 7];
      match LastIndexBelow(u, '-', |u|)
      case None => None
      case Some(k) =>
        var left, hex := u[..k], u[k + 1..];
        if |left| > 4 && EndsWith(left, ".bin") && |hex| > 0 && IsHex(hex) then Some(left[..|left| - 4])
        else None
  }

  lemma SignedTailRoundTrip(key: string, randomStr: string)
    requires key != "" && randomStr != "" && IsHex(randomStr)
    ensures ParseSignedTail(key + ".bin-" + randomStr + ".signed") == Some(key)
  {
    var t := key + ".bin-" + randomStr + ".signed";
    var u := key + ".bin-" + randomStr;
    assert t[..|t| - 7] == u;
    assert u == (key + ".bin") + ['-'] + randomStr;
    forall j | |key| + 4 < j < |u| ensures u[j] != '-' {
      assert u[j] == randomStr[j - |key| - 5];
    }
    LastIndexBelowIs(u, '-', |u|, |key| + 4);
    assert u[..|key| + 4] == key + ".bin";
    assert u[|key| + 5..] == randomStr;
    assert (key + ".bin")[..|key|] == key;
  }

  /** The fields a payload name's regex captures before the signed tail. */
  datatype NameFields = NameFields(first: string, channel: string, key: string)

  /** What follows `prefix` at the start of `s`. */
  function After(s: string, prefix: string): (r: Option<string>)
    ensures r.Some? <==> StartsWith(s, prefix)
    ensures r.Some? ==> s == prefix + r.value
  {
    if StartsWith(s, prefix) then
      assert s == prefix + s[|prefix|..];
      Some(s[|prefix|..])
    else None
  }

  lemma AfterRoundTrip(prefix: string, rest: string)
    ensures After(prefix + rest, prefix) == Some(rest)
  {
    assert (prefix + rest)[..|prefix|] == prefix;
  }

  /** A `[^_]+` group and the '_' after it: the text up to the first '_', and what follows. */
  function Field(s: string): (r: Option<(string, string)>)
    ensures r.Some? ==> r.value.0 != "" && '_' !in r.value.0 && s == r.value.0 + "_" + r.value.1
  {
    if '_' !in s then None
    else
      var i := IndexOf(s, '_');
      if i == 0 then None
      else
        assert s == s[..i] + "_" + s[i + 1..];
        Some((s[..i], s[i + 1..]))
  }

  lemma FieldRoundTrip(field: string, rest: string)
    requires field != "" && '_' !in field
    ensures Field(field + "_" + rest) == Some((field, rest))
  {
    IndexOfAfter(field, '_', rest);
    var s := field + "_" + rest;
    assert s == field + ['_'] + rest;
    assert s[..|field|] == field && s[|field| + 1..] == rest;
  }

  /**
    "chromeos_<first>_<board>_<channel>_<marker>_<key>.bin-<hex>.signed", where
    `first`, `channel` and `key` hold no '_' and `board` is the build's board.
  */
  function ParseName(name: string, board: string, marker: string): Option<NameFields>
  {
    match After(name, "chromeos_")
    case None => None
    case Some(r0) =>
      match Field(r0)
      case None => None
      case Some((first, r1)) =>
        match After(r1, board + "_")
        case None => None
        case Some(r2) =>
          match Field(r2)
          case None => None
          case Some((channel, r3)) =>
            match After(r3, marker + "_")
            case None => None
            case Some(tail) =>
              if '_' in tail then None
              else match ParseSignedTail(DropFinalNewline(tail))
                case None => None
                case Some(key) => Some(NameFields(first, channel, key))
  }

  /** What `ParseName` passes to the signed-tail match. */
  function NameTail(name: string, board: string, marker: string): (tail: string)
    requires ParseName(name, board, marker).Some?
    ensures EndsWith(name, tail) && EndsWith(DropFinalNewline(tail), ".signed")
  {
    var r0 := After(name, "chromeos_").value;
    var (first, r1) := Field(r0).value;
    var r2 := After(r1, board + "_").value;
    var (channel, r3) := Field(r2).value;
    var tail := After(r3, marker + "_").value;
    EndsWithAppend("chromeos_", r0);
    EndsWithAppend(first + "_", r1);
    EndsWithAppend(board + "_", r2);
    EndsWithAppend(channel + "_", r3);
    EndsWithAppend(marker + "_", tail);
    EndsWithTransitive(name, r0, r1);
    EndsWithTransitive(name, r1, r2);
    EndsWithTransitive(name, r2, r3);
    EndsWithTransitive(name, r3, tail);
    tail
  }

  /** A name the payload regexes accept ends in ".signed", or ".signed" and a newline. */
  lemma ParsedNameIsSigned(name: string, board: string, marker: string)
    requires ParseName(name, board, marker).Some?
    ensures EndsWith(name, ".signed") || EndsWith(name, ".signed\n")
  {
    var tail := NameTail(name, board, marker);
    SignedSuffix(name, tail);
  }

  /** A string ending in a tail that is signed up to a final newline is itself signed so. */
  lemma SignedSuffix(name: string, tail: string)
    requires EndsWith(name, tail) && EndsWith(DropFinalNewline(tail), ".signed")
    ensures EndsWith(name, ".signed") || EndsWith(name, ".signed\n")
  {
    DropFinalNewlineEndsWith(tail, ".signed");
    if EndsWith(tail, ".signed") {
      EndsWithTransitive(name, tail, ".signed");
    } else {
      EndsWithTransitive(name, tail, ".signed" + "\n");
    }
  }

  lemma DropFinalNewlineEndsWith(t: string, suffix: string)
    requires EndsWith(DropFinalNewline(t), suffix)
    ensures EndsWith(t, suffix) || EndsWith(t, suffix + "\n")
  {
    var d := DropFinalNewline(t);
    if d != t {
      assert t == d + "\n";
      assert t[|t| - |suffix| - 1..] == d[|d| - |suffix|..] + "\n";
    }
  }

  /** `ParseName` read off its stages. */
  lemma ParseNameSteps(name: string, board: string, marker: string, r0: string, first: string,
                       r1: string, r2: string, channel: string, r3: string, tail: string, key: string)
    requires After(name, "chromeos_") == Some(r0) && Field(r0) == Some((first, r1))
    requires After(r1, board + "_") == Some(r2) && Field(r2) == Some((channel, r3))
    requires After(r3, marker + "_") == Some(tail) && '_' !in tail
    requires ParseSignedTail(DropFinalNewline(tail)) == Some(key)
    ensures ParseName(name, board, marker) == Some(NameFields(first, channel, key))
  {
  }

  /** The five name fields joined by '_', written out. */
  lemma JoinFive(a: string, b: string, c: string, d: string, e: string)
    ensures Join([a, b, c, d, e], "_") == a + "_" + (b + "_" + (c + "_" + (d + "_" + e)))
  {
    assert [d, e][1..] == [e];
    assert Join([d, e], "_") == d + "_" + e;
    assert [c, d, e][1..] == [d, e];
    assert Join([c, d, e], "_") == c + "_" + (d + "_" + e);
    assert [b, c, d, e][1..] == [c, d, e];
    assert Join([b, c, d, e], "_") == b + "_" + (c + "_" + (d + "_" + e));
    assert [a, b, c, d, e][1..] == [b, c, d, e];
  }

  lemma ParseNameRoundTrip(first: string, board: string, channel: string,
                           marker: string, key: string, randomStr: string)
    requires first != "" && '_' !in first && channel != "" && '_' !in channel
    requires key != "" && '_' !in key && randomStr != "" && IsHex(randomStr)
    ensures ParseName("chromeos_" + Join([first, board, channel, marker,
                                          key + ".bin-" + randomStr + ".signed"], "_"), board, marker)
         == Some(NameFields(first, channel, key))
  {
    var tail := key + ".bin-" + randomStr + ".signed";
    var r3 := marker + "_" + tail;
    var r2 := channel + "_" + r3;
    var r1 := board + "_" + r2;
    var r0 := first + "_" + r1;
    JoinFive(first, board, channel, marker, tail);
    AfterRoundTrip("chromeos_", r0);
    FieldRoundTrip(first, r1);
    AfterRoundTrip(board + "_", r2);
    FieldRoundTrip(channel, r3);
    AfterRoundTrip(marker + "_", tail);
    SignedTailAvoids(key, randomStr, '_');
    assert DropFinalNewline(tail) == tail by {
      assert tail[|tail| - 1] == 'd';
    }
    SignedTailRoundTrip(key, randomStr);
    ParseNameSteps("chromeos_" + r0, board, marker, r0, first, r1, r2, channel, r3, tail, key);
  }

  /** Neither '_' nor '/' can occur in a signed tail unless the key holds it. */
  lemma SignedTailAvoids(key: string, randomStr: string, c: char)
    requires (c == '_' || c == '/') && c !in key && IsHex(randomStr)
    ensures c !in key + ".bin-" + randomStr + ".signed"
  {
    forall k | 0 <= k < |randomStr| ensures randomStr[k] != c {
      assert IsHexDigit(randomStr[k]);
    }
  }

  /** `ParseName` fails when the marker is not the one the name carries. */
  lemma ParseNameStopsAtMarker(name: string, board: string, marker: string, r0: string,
                               first: string, r1: string, r2: string, channel: string, r3: string)
    requires After(name, "chromeos_") == Some(r0) && Field(r0) == Some((first, r1))
    requires After(r1, board + "_") == Some(r2) && Field(r2) == Some((channel, r3))
    requires After(r3, marker + "_") == None
    ensures ParseName(name, board, marker) == None
  {
  }

  /** A full payload's name is no delta payload's, and the other way round. */
  lemma ParseNameOtherMarker(first: string, board: string, channel: string, delta: bool, tail: string)
    requires first != "" && '_' !in first && channel != "" && '_' !in channel
    ensures ParseName("chromeos_" + Join([first, board, channel, if delta then "delta" else "full", tail], "_"),
                      board, if delta then "full" else "delta") == None
  {
    var marker := if delta then "delta" else "full";
    var other := if delta then "full" else "delta";
    var r3 := marker + "_" + tail;
    var r2 := channel + "_" + r3;
    var r1 := board + "_" + r2;
    var r0 := first + "_" + r1;
    JoinFive(first, board, channel, marker, tail);
    AfterRoundTrip("chromeos_", r0);
    FieldRoundTrip(first, r1);
    AfterRoundTrip(board + "_", r2);
    FieldRoundTrip(channel, r3);
    assert r3[0] == marker[0] != other[0];
    ParseNameStopsAtMarker("chromeos_" + r0, board, other, r0, first, r1, r2, channel, r3);
  }

  /**
    The delta regex's "<src_version>-<image_version>": the greedy source
    version ends at the last '-' that leaves a non-empty image version.
  */
  function SplitDelta(first: string): (r: Option<(string, string)>)
    ensures r.Some? ==> r.value.0 != "" && r.value.1 != "" && first == r.value.0 + "-" + r.value.1
  {
    if |first| < 2 then None
    else match LastIndexBelow(first, '-', |first| - 1)
      case Some(i) =>
        if i >= 1 then
          assert first == first[..i] + "-" + first[i + 1..];
          Some((first[..i], first[i + 1..]))
        else None
      case None => None
  }

  lemma SplitDeltaRoundTrip(srcVersion: string, version: string)
    requires srcVersion != "" && version != "" && '-' !in version
    ensures SplitDelta(srcVersion + "-" + version) == Some((srcVersion, version))
  {
    var f := srcVersion + "-" + version;
    forall j | |srcVersion| < j < |f| - 1 ensures f[j] != '-' {
      assert f[j] == version[j - |srcVersion| - 1];
    }
    LastIndexBelowIs(f, '-', |f| - 1, |srcVersion|);
    assert f[..|srcVersion|] == srcVersion && f[|srcVersion| + 1..] == version;
  }

  const BuildKeys: set<string> := {"bucket", "channel", "board", "version"}
  const FullGroups: set<string> := BuildKeys + {"image_version", "image_channel", "key"}
  const DeltaGroups: set<string> := FullGroups + {"src_version"}

  /** The named groups of a payload regex, the source version only in the delta one. */
  function Groups(bucket: string, channel: string, board: string, version: string,
                  imageChannel: string, key: string, imageVersion: string,
                  srcVersion: Option<string>): (g: map<string, string>)
    ensures g.Keys == if srcVersion.Some? then DeltaGroups else FullGroups
  {
    var groups := map["bucket" := bucket, "channel" := channel, "board" := board,
                      "version" := version, "image_channel" := imageChannel, "key" := key,
                      "image_version" := imageVersion];
    if srcVersion.Some? then groups["src_version" := srcVersion.value] else groups
  }

  /** `.*` groups: the four build segments hold no newline. */
  predicate NoNewline(segs: seq<string>) {
    forall i :: 0 <= i < |segs| ==> '\n' !in segs[i]
  }

  /** The groups of the payload name regex, given the URI's six segments. */
  function MatchPayloadName(segs: seq<string>, delta: bool): (m: Option<map<string, string>>)
    requires |segs| == 6
    ensures m.Some? ==> m.value.Keys == if delta then DeltaGroups else FullGroups
    ensures m.Some? ==> ParseName(segs[5], segs[2], if delta then "delta" else "full").Some?
  {
    match ParseName(segs[5], segs[2], if delta then "delta" else "full")
    case None => None
    case Some(f) =>
      if !delta then Some(Groups(segs[0], segs[1], segs[2], segs[3], f.channel, f.key, f.first, None))
      else match SplitDelta(f.first)
        case None => None
        case Some((src, version)) =>
          Some(Groups(segs[0], segs[1], segs[2], segs[3], f.channel, f.key, version, Some(src)))
  }

  /**
    The named groups of the full (`delta` false) or delta payload regex on
    `uri`, or `None` when it does not match.
  */
  function MatchPayloadUri(uri: string, delta: bool): (m: Option<map<string, string>>)
    ensures m.Some? ==> m.value.Keys == if delta then DeltaGroups else FullGroups
  {
    match After(uri, "gs://")
    case None => None
    case Some(path) =>
      var segs := Split(path, '/');
      if |segs| != 6 || segs[4] != "payloads" || !NoNewline(segs[..4]) then None
      else MatchPayloadName(segs, delta)
  }

  /** A value of the dictionary the URI parsers build: a captured string or a build. */
  datatype Value = Text(text: string) | BuildValue(build: Build)

  /**
    The groups of a regex match with bucket, channel, board and version
    replaced by one "build" entry; `None` when the regex did not match.
  */
  function BuildValuesFromUri(groups: Option<map<string, string>>): (values: Option<map<string, Value>>)
    requires groups.Some? ==> BuildKeys <= groups.value.Keys
    ensures values.Some? <==> groups.Some?
    ensures values.Some? ==>
      var g := groups.value;
      && values.value.Keys == g.Keys - BuildKeys + {"build"}
      && values.value["build"] == BuildValue(Build(g["bucket"], g["channel"], g["board"], g["version"]))
      && forall k :: k in g.Keys - BuildKeys - {"build"} ==> values.value[k] == Text(g[k])
  {
    match groups
    case None => None
    case Some(g) =>
      var b := Build(g["bucket"], g["channel"], g["board"], g["version"]);
      Some((map k | k in g.Keys - BuildKeys :: Text(g[k]))["build" := BuildValue(b)])
  }

  /** The dictionary a payload regex yields once its build has been assembled. */
  predicate PayloadValues(v: map<string, Value>, delta: bool) {
    && "build" in v && v["build"].BuildValue?
    && forall k :: k in (if delta then DeltaGroups else FullGroups) - BuildKeys ==> k in v && v[k].Text?
  }

  lemma MatchedValuesArePayloadValues(g: map<string, string>, delta: bool)
    requires g.Keys == if delta then DeltaGroups else FullGroups
    ensures BuildValuesFromUri(Some(g)).Some?
    ensures PayloadValues(BuildValuesFromUri(Some(g)).value, delta)
  {
    var v := BuildValuesFromUri(Some(g)).value;
    forall k | k in (if delta then DeltaGroups else FullGroups) - BuildKeys
      ensures k in v && v[k].Text?
    {
      assert k in g.Keys - BuildKeys - {"build"};
    }
  }

  /**
    The payload a matched dictionary describes. The images' URIs are unknown;
    a delta's source image has the source version and no key, image channel
    or image version.
  */
  function PayloadFromValues(v: map<string, Value>, delta: bool, uri: string): (p: Payload)
    requires PayloadValues(v, delta)
    ensures p.uri == Some(uri) && !p.alreadyExists
    ensures p.srcImage.Some? <==> delta
  {
    var build := v["build"].build;
    var tgt := NewImage(build, None, Some(v["key"].text),
                        Some(v["image_channel"].text), Some(v["image_version"].text), None);
    if delta then
      var src := NewImage(build.(version := v["src_version"].text), None, None, None, None, None);
      NewPayload(tgt, Some(src), Some(uri))
    else
      NewPayload(tgt, None, Some(uri))
  }

  /** A payload from its URI: the full regex is tried first, then the delta one. */
  function ParsePayloadUri(uri: string): (p: Option<Payload>)
    ensures p.Some? ==> p.value.uri == Some(uri) && !p.value.alreadyExists
  {
    if MatchPayloadUri(uri, false).Some? then
      MatchedValuesArePayloadValues(MatchPayloadUri(uri, false).value, false);
      Some(PayloadFromValues(BuildValuesFromUri(MatchPayloadUri(uri, false)).value, false, uri))
    else if MatchPayloadUri(uri, true).Some? then
      MatchedValuesArePayloadValues(MatchPayloadUri(uri, true).value, true);
      Some(PayloadFromValues(BuildValuesFromUri(MatchPayloadUri(uri, true)).value, true, uri))
    else
      None
  }

  lemma MatchedUriIsSigned(uri: string, delta: bool)
    requires MatchPayloadUri(uri, delta).Some?
    ensures EndsWith(uri, ".signed") || EndsWith(uri, ".signed\n")
  {
    var path := After(uri, "gs://").value;
    var segs := Split(path, '/');
    ParsedNameIsSigned(segs[5], segs[2], if delta then "delta" else "full");
    SplitLastIsSuffix(path, '/');
    EndsWithAppend("gs://", path);
    EndsWithTransitive(uri, path, segs[5]);
    if EndsWith(segs[5], ".signed") {
      EndsWithTransitive(uri, segs[5], ".signed");
    } else {
      EndsWithTransitive(uri, segs[5], ".signed\n");
    }
  }

  /** Only signed payloads are recognised: a parsed URI ends in ".signed" (or that and a newline). */
  lemma ParsedUrisAreSigned(uri: string)
    requires ParsePayloadUri(uri).Some?
    ensures EndsWith(uri, ".signed") || EndsWith(uri, ".signed\n")
  {
    if MatchPayloadUri(uri, false).Some? {
      MatchedUriIsSigned(uri, false);
    } else {
      MatchedUriIsSigned(uri, true);
    }
  }

  /** A string ending in ".bin-<hex>" ends neither in ".signed" nor in ".signed" and a newline. */
  lemma HexEndingIsNotSigned(s: string, randomStr: string)
    requires EndsWith(s, ".bin-" + randomStr) && IsHex(randomStr)
    ensures !EndsWith(s, ".signed") && !EndsWith(s, ".signed\n")
  {
    var e := ".bin-" + randomStr;
    var n := |s|;
    assert s[n - |e|..] == e;
    if |randomStr| > 0 {
      assert s[n - 1] == randomStr[|randomStr| - 1] && IsHexDigit(s[n - 1]);
    } else {
      assert s[n - 1] == '-';
    }
    if |randomStr| >= 3 {
      assert s[n - 3] == randomStr[|randomStr| - 3] && IsHexDigit(s[n - 3]);
    } else if |randomStr| == 2 {
      assert s[n - 3] == '-';
    } else if |randomStr| == 1 {
      assert s[n - 2] == '-';
    }
  }

  /** An unsigned payload's URI (no key) is not recognised by the parser. */
  lemma UnsignedPayloadUrisDoNotParse(b: Build, randomStr: string, imageChannel: Option<string>,
                                      imageVersion: Option<string>, srcVersion: Option<string>)
    requires IsHex(randomStr)
    ensures ParsePayloadUri(PayloadUri(b, randomStr, None, imageChannel, imageVersion, srcVersion)).None?
  {
    var uri := PayloadUri(b, randomStr, None, imageChannel, imageVersion, srcVersion);
    UnsignedPayloadUriEnding(b, randomStr, imageChannel, imageVersion, srcVersion);
    HexEndingIsNotSigned(uri, randomStr);
    if ParsePayloadUri(uri).Some? {
      ParsedUrisAreSigned(uri);
    }
  }

  /** An unsigned payload's URI ends in `.bin-` and its random string. */
  lemma UnsignedPayloadUriEnding(b: Build, randomStr: string, imageChannel: Option<string>,
                                 imageVersion: Option<string>, srcVersion: Option<string>)
    ensures EndsWith(PayloadUri(b, randomStr, None, imageChannel, imageVersion, srcVersion), ".bin-" + randomStr)
  {
    var uri := PayloadUri(b, randomStr, None, imageChannel, imageVersion, srcVersion);
    var ic := imageChannel.GetOr(b.channel);
    var iv := imageVersion.GetOr(b.version);
    var last := "test" + ".bin-" + randomStr + "";
    var parts := [FirstNameField(iv, srcVersion), b.board, ic, Marker(srcVersion), last];
    var name := PayloadName(ic, b.board, iv, None, randomStr, srcVersion, "test");
    assert name == "chromeos_" + Join(parts, "_");
    JoinEndsWithLast(parts, "_");
    EndsWithAppend("chromeos_", Join(parts, "_"));
    EndsWithTransitive(name, Join(parts, "_"), last);
    assert last == "test" + (".bin-" + randomStr);
    EndsWithAppend("test", ".bin-" + randomStr);
    EndsWithTransitive(name, last, ".bin-" + randomStr);
    PathJoinEndsWith(BuildPayloadsUri(b), name);
    EndsWithTransitive(uri, name, ".bin-" + randomStr);
  }

  /** A build field that cannot break the URI's segments or a `.*` group. */
  predicate PathField(s: string) {
    '/' !in s && '\n' !in s
  }

  /** A name field that one `[^_]+` group captures whole. */
  predicate NameField(s: string) {
    s != "" && '_' !in s && '/' !in s
  }

  /** A payload URI is "gs://" and the build's segments, "payloads" and the name, joined by '/'. */
  lemma PayloadUriJoins(b: Build, name: string)
    requires PlainVersion(b) && name != "" && '/' !in name
    ensures PathJoin(BuildPayloadsUri(b), name) == "gs://" + Join(BuildSegments(b) + ["payloads", name], "/")
  {
    PayloadsUrisNest(b);
    var p := BuildPayloadsUri(b);
    assert name[0] in name;
    assert p[|p| - 1] == 's';
    var segs := BuildSegments(b);
    var j := Join(segs, "/");
    JoinSnoc(segs, "/", "payloads");
    JoinSnoc(segs + ["payloads"], "/", name);
    assert segs + ["payloads"] + [name] == segs + ["payloads", name];
    assert p == "gs://" + j + "/payloads";
    assert PathJoin(p, name) == p + "/" + name;
    assert "/payloads" == "/" + "payloads";
  }

  lemma PayloadUriSplits(b: Build, name: string)
    requires Segment(b.bucket) && Segment(b.channel) && Segment(b.board) && Segment(b.version)
    requires '/' !in name
    ensures Split(Join(BuildSegments(b) + ["payloads", name], "/"), '/') == BuildSegments(b) + ["payloads", name]
  {
    var all := BuildSegments(b) + ["payloads", name];
    assert all == [b.bucket, b.channel, b.board, b.version, "payloads", name];
    SplitJoin(all, '/');
  }

  /** On a payload URI the regexes come down to matching the name. */
  lemma PayloadUriMatches(b: Build, name: string, delta: bool)
    requires PlainVersion(b) && PathField(b.bucket) && PathField(b.channel)
    requires PathField(b.board) && PathField(b.version) && name != "" && '/' !in name
    ensures var segs := BuildSegments(b) + ["payloads", name];
      MatchPayloadUri(PathJoin(BuildPayloadsUri(b), name), delta) == MatchPayloadName(segs, delta)
  {
    var segs := BuildSegments(b) + ["payloads", name];
    var path := Join(segs, "/");
    var uri := PathJoin(BuildPayloadsUri(b), name);
    PayloadUriJoins(b, name);
    AfterRoundTrip("gs://", path);
    assert After(uri, "gs://") == Some(path);
    PayloadUriSplits(b, name);
    assert segs[..4] == BuildSegments(b);
    BuildSegmentsNoNewline(b);
    MatchPayloadUriOf(uri, path, segs, delta);
  }

  lemma BuildSegmentsNoNewline(b: Build)
    requires PathField(b.bucket) && PathField(b.channel) && PathField(b.board) && PathField(b.version)
    ensures NoNewline(BuildSegments(b))
  {
  }

  /** A URI whose path splits into four segments, `payloads` and a name is matched on that name. */
  lemma MatchPayloadUriOf(uri: string, path: string, segs: seq<string>, delta: bool)
    requires After(uri, "gs://") == Some(path) && Split(path, '/') == segs
    requires |segs| == 6 && segs[4] == "payloads" && NoNewline(segs[..4])
    ensures MatchPayloadUri(uri, delta) == MatchPayloadName(segs, delta)
  {
  }

  /** The payload the parser builds from the groups of a payload URI. */
  lemma PayloadOfGroups(bucket: string, channel: string, board: string, version: string,
                        imageChannel: string, key: string, imageVersion: string,
                        srcVersion: Option<string>, uri: string)
    ensures BuildValuesFromUri(Some(Groups(bucket, channel, board, version, imageChannel, key,
                                           imageVersion, srcVersion))).Some?
    ensures PayloadValues(BuildValuesFromUri(Some(Groups(bucket, channel, board, version, imageChannel,
                                                         key, imageVersion, srcVersion))).value,
                          srcVersion.Some?)
    ensures var b := Build(bucket, channel, board, version);
      PayloadFromValues(BuildValuesFromUri(Some(Groups(bucket, channel, board, version, imageChannel, key,
                                                       imageVersion, srcVersion))).value,
                        srcVersion.Some?, uri)
      == NewPayload(NewImage(b, None, Some(key), Some(imageChannel), Some(imageVersion), None),
                    if srcVersion.Some? then Some(NewImage(b.(version := srcVersion.value), None, None, None, None, None))
                    else None,
                    Some(uri))
  {
    var g := Groups(bucket, channel, board, version, imageChannel, key, imageVersion, srcVersion);
    MatchedValuesArePayloadValues(g, srcVersion.Some?);
    ValuesOfGroups(bucket, channel, board, version, imageChannel, key, imageVersion, srcVersion);
  }

  /** The values built from the groups: the build, and each other group as text. */
  lemma ValuesOfGroups(bucket: string, channel: string, board: string, version: string,
                       imageChannel: string, key: string, imageVersion: string, srcVersion: Option<string>)
    ensures var v := BuildValuesFromUri(Some(Groups(bucket, channel, board, version, imageChannel, key,
                                                    imageVersion, srcVersion))).value;
      && v["build"] == BuildValue(Build(bucket, channel, board, version))
      && v["key"] == Text(key) && v["image_channel"] == Text(imageChannel)
      && v["image_version"] == Text(imageVersion)
      && (srcVersion.Some? ==> v["src_version"] == Text(srcVersion.value))
  {
    var g := Groups(bucket, channel, board, version, imageChannel, key, imageVersion, srcVersion);
    GroupsLookups(bucket, channel, board, version, imageChannel, key, imageVersion, srcVersion);
    TextValueOfGroup(g, "key");
    TextValueOfGroup(g, "image_channel");
    TextValueOfGroup(g, "image_version");
    if srcVersion.Some? {
      TextValueOfGroup(g, "src_version");
    }
  }

  lemma GroupsLookups(bucket: string, channel: string, board: string, version: string,
                      imageChannel: string, key: string, imageVersion: string, srcVersion: Option<string>)
    ensures var g := Groups(bucket, channel, board, version, imageChannel, key, imageVersion, srcVersion);
      && g["bucket"] == bucket && g["channel"] == channel && g["board"] == board && g["version"] == version
      && g["key"] == key && g["image_channel"] == imageChannel && g["image_version"] == imageVersion
      && (srcVersion.Some? ==> g["src_version"] == srcVersion.value)
  {
  }

  /** A group other than the build's four becomes a text value under its own name. */
  lemma TextValueOfGroup(g: map<string, string>, k: string)
    requires BuildKeys <= g.Keys && k in g.Keys && k !in BuildKeys && k != "build"
    ensures BuildValuesFromUri(Some(g)).value[k] == Text(g[k])
  {
    assert k in g.Keys - BuildKeys - {"build"};
  }

  /** A signed payload name has no slash, so the URI's last segment is the whole name. */
  lemma PayloadNameInUri(b: Build, randomStr: string, key: string, ic: string, iv: string,
                         srcVersion: Option<string>)
    requires PlainVersion(b) && PathField(b.bucket) && PathField(b.channel)
    requires PathField(b.board) && PathField(b.version)
    requires NameField(ic) && NameField(iv)
    requires NameField(key) && randomStr != "" && IsHex(randomStr)
    requires Truthy(srcVersion) ==> NameField(srcVersion.value)
    ensures var name := PayloadName(ic, b.board, iv, Some(key), randomStr, srcVersion, "test");
      && name == "chromeos_" + Join([FirstNameField(iv, srcVersion), b.board, ic, Marker(srcVersion),
                                     key + ".bin-" + randomStr + ".signed"], "_")
      && PathJoin(BuildPayloadsUri(b), name) == PayloadUri(b, randomStr, Some(key), Some(ic), Some(iv), srcVersion)
      && forall delta: bool :: MatchPayloadUri(PathJoin(BuildPayloadsUri(b), name), delta)
                               == MatchPayloadName(BuildSegments(b) + ["payloads", name], delta)
  {
    var fields := [FirstNameField(iv, srcVersion), b.board, ic, Marker(srcVersion),
                   key + ".bin-" + randomStr + ".signed"];
    var name := PayloadName(ic, b.board, iv, Some(key), randomStr, srcVersion, "test");
    assert name == "chromeos_" + Join(fields, "_");
    SignedTailAvoids(key, randomStr, '/');
    JoinAvoids(fields, "_", '/');
    PayloadUriMatches(b, name, false);
    PayloadUriMatches(b, name, true);
  }

  /** The groups the URI patterns capture from a payload URI built from a signed name. */
  lemma PayloadUriGroups(b: Build, randomStr: string, key: string, imageChannel: Option<string>,
                         imageVersion: Option<string>, srcVersion: Option<string>)
    requires PlainVersion(b) && PathField(b.bucket) && PathField(b.channel)
    requires PathField(b.board) && PathField(b.version)
    requires NameField(imageChannel.GetOr(b.channel)) && NameField(imageVersion.GetOr(b.version))
    requires NameField(key) && randomStr != "" && IsHex(randomStr)
    requires Truthy(srcVersion) ==> NameField(srcVersion.value) && '-' !in imageVersion.GetOr(b.version)
    ensures var uri := PayloadUri(b, randomStr, Some(key), imageChannel, imageVersion, srcVersion);
      var ic := imageChannel.GetOr(b.channel);
      var iv := imageVersion.GetOr(b.version);
      if Truthy(srcVersion) then
        && MatchPayloadUri(uri, false) == None
        && MatchPayloadUri(uri, true)
           == Some(Groups(b.bucket, b.channel, b.board, b.version, ic, key, iv, Some(srcVersion.value)))
      else
        MatchPayloadUri(uri, false) == Some(Groups(b.bucket, b.channel, b.board, b.version, ic, key, iv, None))
  {
    var uri := PayloadUri(b, randomStr, Some(key), imageChannel, imageVersion, srcVersion);
    var ic := imageChannel.GetOr(b.channel);
    var iv := imageVersion.GetOr(b.version);
    var first := FirstNameField(iv, srcVersion);
    var marker := Marker(srcVersion);
    var tail := key + ".bin-" + randomStr + ".signed";
    var fields := [first, b.board, ic, marker, tail];
    var name := PayloadName(ic, b.board, iv, Some(key), randomStr, srcVersion, "test");
    PayloadNameInUri(b, randomStr, key, ic, iv, srcVersion);
    var segs := BuildSegments(b) + ["payloads", name];
    assert segs[5] == name && segs[2] == b.board;
    ParseNameRoundTrip(first, b.board, ic, marker, key, randomStr);
    if Truthy(srcVersion) {
      ParseNameOtherMarker(first, b.board, ic, true, tail);
      SplitDeltaRoundTrip(srcVersion.value, iv);
    }
  }

  /**
    Parsing the URI of a signed payload gives back the payload: its build,
    its target image's key and effective channel and version, and for a
    delta the source version. Fields must not hold the separators the
    regexes rely on, and a delta's target version holds no '-'.
  */
  lemma PayloadUriRoundTrip(b: Build, randomStr: string, key: string, imageChannel: Option<string>,
                            imageVersion: Option<string>, srcVersion: Option<string>)
    requires PlainVersion(b) && PathField(b.bucket) && PathField(b.channel)
    requires PathField(b.board) && PathField(b.version)
    requires NameField(imageChannel.GetOr(b.channel)) && NameField(imageVersion.GetOr(b.version))
    requires NameField(key) && randomStr != "" && IsHex(randomStr)
    requires Truthy(srcVersion) ==> NameField(srcVersion.value) && '-' !in imageVersion.GetOr(b.version)
    ensures var uri := PayloadUri(b, randomStr, Some(key), imageChannel, imageVersion, srcVersion);
      ParsePayloadUri(uri)
      == Some(NewPayload(NewImage(b, None, Some(key), imageChannel, imageVersion, None),
                         if Truthy(srcVersion)
                         then Some(NewImage(b.(version := srcVersion.value), None, None, None, None, None))
                         else None,
                         Some(uri)))
  {
    var uri := PayloadUri(b, randomStr, Some(key), imageChannel, imageVersion, srcVersion);
    var sv := if Truthy(srcVersion) then Some(srcVersion.value) else None;
    PayloadUriGroups(b, randomStr, key, imageChannel, imageVersion, srcVersion);
    PayloadOfGroups(b.bucket, b.channel, b.board, b.version, imageChannel.GetOr(b.channel), key,
                    imageVersion.GetOr(b.version), sv, uri);
  }

  // ---------------------------------------------------------------------------
  // Version ordering.

  /** Python's `int(s)` on an optional sign followed by decimal digits. */
  function ParseInt(s: string): Option<int> {
    var sign := if |s| > 0 && (s[0] == '+' || s[0] == '-') then 1 else 0;
    var digits := s[sign..];
    if |digits| == 0 || exists i :: 0 <= i < |digits| && !IsDigit(digits[i]) then None
    else if sign == 1 && s[0] == '-' then Some(-(DigitsValue(digits) as int))
    else Some(DigitsValue(digits))
  }

  function ParseInts(parts: seq<string>): (r: Option<seq<int>>)
    ensures r.Some? ==> |r.value| == |parts|
  {
    if |parts| == 0 then Some([])
    else match (ParseInt(parts[0]), ParseInts(parts[1..]))
      case (Some(n), Some(rest)) => Some([n] + rest)
      case _ => None
  }

  /**
    The sort key of a version: "1.2.3" (new style) becomes [1, 0, 1, 2, 3] and
    "0.12.3.4" (old style) [0, 0, 12, 3, 4]; any other number of parts fails
    the source's assertion.
  */
  function VersionKey(version: string): (r: Result<seq<int>, string>)
    ensures r.Success? <==>
      ParseInts(Split(version, '.')).Some? && (|Split(version, '.')| == 3 || |Split(version, '.')| == 4)
    ensures r.Success? ==> |r.value| == 5 && (r.value[0] == 1 <==> |Split(version, '.')| == 3)
    ensures r.Success? ==> r.value[|r.value| - |Split(version, '.')|..] == ParseInts(Split(version, '.')).value
    ensures r.Success? ==>
      r.value == (if |Split(version, '.')| == 3 then [1, 0] else [0]) + ParseInts(Split(version, '.')).value
  {
    match ParseInts(Split(version, '.'))
    case None => Failure("ValueError")
    case Some(key) =>
      if |key| == 3 then Success([1, 0] + key)
      else if |key| == 4 then Success([0] + key)
      else Failure("AssertionError")
  }

  /** Python's `>` on lists of integers. */
  predicate LexGreater(a: seq<int>, b: seq<int>)
    decreases |a|
  {
    |a| > 0 && (|b| == 0 || a[0] > b[0] || (a[0] == b[0] && LexGreater(a[1..], b[1..])))
  }

  lemma {:induction false} LexGreaterIrreflexive(a: seq<int>)
    ensures !LexGreater(a, a)
    decreases |a|
  {
    if |a| > 0 {
      LexGreaterIrreflexive(a[1..]);
    }
  }

  lemma {:induction false} LexGreaterAsymmetric(a: seq<int>, b: seq<int>)
    requires LexGreater(a, b)
    ensures !LexGreater(b, a)
    decreases |a|
  {
    if |b| > 0 && a[0] == b[0] {
      LexGreaterAsymmetric(a[1..], b[1..]);
    }
  }

  lemma {:induction false} LexGreaterTransitive(a: seq<int>, b: seq<int>, c: seq<int>)
    requires LexGreater(a, b) && LexGreater(b, c)
    ensures LexGreater(a, c)
    decreases |a|
  {
    if |c| > 0 && a[0] == b[0] && b[0] == c[0] {
      LexGreaterTransitive(a[1..], b[1..], c[1..]);
    }
  }

  /** `left > right` on version keys; a malformed version raises. */
  function VersionGreater(left: string, right: string): (r: Result<bool, string>)
    ensures r.Success? <==> VersionKey(left).Success? && VersionKey(right).Success?
    ensures r.Success? ==> (r.value <==> LexGreater(VersionKey(left).value, VersionKey(right).value))
  {
    match (VersionKey(left), VersionKey(right))
    case (Success(l), Success(r)) => Success(LexGreater(l, r))
    case (Failure(e), _) => Failure(e)
    case (_, Failure(e)) => Failure(e)
  }

  /** `VersionGreater` is a strict order on well-formed versions. */
  lemma VersionGreaterStrictOrder(a: string, b: string, c: string)
    requires VersionKey(a).Success? && VersionKey(b).Success? && VersionKey(c).Success?
    ensures VersionGreater(a, a) == Success(false)
    ensures VersionGreater(a, b) == Success(true) ==> VersionGreater(b, a) == Success(false)
    ensures VersionGreater(a, b) == Success(true) && VersionGreater(b, c) == Success(true)
            ==> VersionGreater(a, c) == Success(true)
  {
    var ka, kb, kc := VersionKey(a).value, VersionKey(b).value, VersionKey(c).value;
    LexGreaterIrreflexive(ka);
    if LexGreater(ka, kb) {
      LexGreaterAsymmetric(ka, kb);
      if LexGreater(kb, kc) {
        LexGreaterTransitive(ka, kb, kc);
      }
    }
  }

  /** Every new-style (three-part) version is greater than every old-style (four-part) one. */
  lemma NewStyleAboveOldStyle(newer: string, older: string)
    requires VersionKey(newer).Success? && VersionKey(older).Success?
    requires |Split(newer, '.')| == 3 && |Split(older, '.')| == 4
    ensures VersionGreater(newer, older) == Success(true)
  {
  }
}
