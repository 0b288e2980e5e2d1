/**
  The naming and validation rules of the update-payload generator: the files
  and URIs derived from a payload, the partitions it extracts, the choice of
  signer, the command-line argument builder, and the checks applied to what
  the signer returns before signatures are stored.

  Running the generator, the signer clients, the download cache, hashing and
  base64 encoding are not modelled; what the signer returns is a parameter.
*/
module PaygenPayloadLib {
  import opened Wrappers
  import opened Strings
  import GsPaths

  /** The version written into every payload description. */
  const DescriptionFileVersion := 2

  /** One key set, 2048-bit keys: one 256-byte signature per hash. */
  const PayloadSignatureSizesBytes: seq<nat> := [256]

  const Rootfs := "root"
  const Kernel := "kernel"

  type Bytes = seq<bv8>

  // ---------------------------------------------------------------------------
  // Derived URIs.

  function MetadataUri(uri: string): string {
    uri + ".metadata-signature"
  }

  function LogsUri(uri: string): string {
    uri + ".log"
  }

  function JsonUri(uri: string): string {
    uri + ".json"
  }

  /**
    The metadata, log and JSON URIs extend the payload URI, differ from it
    and from each other, and give the payload URI back.
  */
  lemma DerivedUrisExtendPayloadUri(uri: string)
    ensures StartsWith(MetadataUri(uri), uri) && StartsWith(LogsUri(uri), uri) && StartsWith(JsonUri(uri), uri)
    ensures MetadataUri(uri)[..|uri|] == LogsUri(uri)[..|uri|] == JsonUri(uri)[..|uri|] == uri
    ensures |{uri, MetadataUri(uri), LogsUri(uri), JsonUri(uri)}| == 4
  {
    var m, l, j := MetadataUri(uri), LogsUri(uri), JsonUri(uri);
    assert m[..|uri|] == uri && l[..|uri|] == uri && j[..|uri|] == uri;
    assert |m| == |uri| + 19 && |l| == |uri| + 4 && |j| == |uri| + 5;
    assert m != l && m != j && l != j && uri != m && uri != l && uri != j;
    assert |{uri, m, l}| == 3;
  }

  // ---------------------------------------------------------------------------
  // Partitions.

  /** A DLC module: its id and package name. */
  datatype DlcIdentity = DlcIdentity(dlcId: string, dlcPackage: string)

  /** The names of the partitions to extract, and where the target and source copies go. */
  datatype PartitionLayout = PartitionLayout(names: seq<string>, tgt: seq<string>, src: seq<string>)

  function SrcImageFile(workDir: string): string {
    PathJoin(workDir, "src_image.bin")
  }

  function TgtImageFile(workDir: string): string {
    PathJoin(workDir, "tgt_image.bin")
  }

  /** "work_dir/<prefix>_<name>.bin" for each name, in order. */
  function PartitionFiles(workDir: string, prefix: string, names: seq<string>): (files: seq<string>)
    ensures |files| == |names|
    ensures forall i :: 0 <= i < |names| ==> files[i] == PathJoin(workDir, prefix + "_" + names[i] + ".bin")
  {
    seq(|names|, i requires 0 <= i < |names| => PathJoin(workDir, prefix + "_" + names[i] + ".bin"))
  }

  /**
    A DLC payload has one partition, "dlc/<id>/<package>", whose copies are
    the image files themselves; any other payload has the root and kernel
    partitions, extracted to "tgt_<name>.bin" and "src_<name>.bin".
  */
  function Partitions(workDir: string, dlc: Option<DlcIdentity>): (p: PartitionLayout)
    ensures |p.names| == |p.tgt| == |p.src|
    ensures dlc.Some? ==> |p.names| == 1 && p.tgt == [TgtImageFile(workDir)] && p.src == [SrcImageFile(workDir)]
    ensures dlc.None? ==> p.names == [Rootfs, Kernel]
  {
    match dlc
    case Some(d) =>
      PartitionLayout(["dlc/" + d.dlcId + "/" + d.dlcPackage], [TgtImageFile(workDir)], [SrcImageFile(workDir)])
    case None =>
      var names := [Rootfs, Kernel];
      PartitionLayout(names, PartitionFiles(workDir, "tgt", names), PartitionFiles(workDir, "src", names))
  }

  /** Joining two different file names of one length onto a directory gives different paths. */
  lemma PathJoinSameLengthDistinct(w: string, a: string, b: string)
    requires |a| == |b| && a != b
    ensures PathJoin(w, a) != PathJoin(w, b)
  {
    PathJoinEndsWith(w, a);
    PathJoinEndsWith(w, b);
  }

  /** Joining relative file names of different lengths onto a directory gives different paths. */
  lemma PathJoinDifferentLengthDistinct(w: string, a: string, b: string)
    requires |a| != |b| && a != "" && b != "" && a[0] != '/' && b[0] != '/'
    ensures PathJoin(w, a) != PathJoin(w, b)
  {
    assert |PathJoin(w, a)| - |a| == |PathJoin(w, b)| - |b|;
  }

  /** The root and kernel extractions never write to the same file. */
  lemma PartitionFilesDistinct(workDir: string)
    ensures var p := Partitions(workDir, None);
      forall i, j :: 0 <= i < 2 && 0 <= j < 2 ==>
        p.tgt[i] != p.src[j] && (i != j ==> p.tgt[i] != p.tgt[j] && p.src[i] != p.src[j])
  {
    var p := Partitions(workDir, None);
    var tr, sr := "tgt" + "_" + Rootfs + ".bin", "src" + "_" + Rootfs + ".bin";
    var tk, sk := "tgt" + "_" + Kernel + ".bin", "src" + "_" + Kernel + ".bin";
    assert p.tgt[0] == PathJoin(workDir, tr) && p.src[0] == PathJoin(workDir, sr);
    assert p.tgt[1] == PathJoin(workDir, tk) && p.src[1] == PathJoin(workDir, sk);
    assert tr[0] == 't' && sr[0] == 's' && tk[0] == 't' && sk[0] == 's';
    assert |tr| == |sr| == 12 && |tk| == |sk| == 14;
    PathJoinSameLengthDistinct(workDir, tr, sr);
    PathJoinSameLengthDistinct(workDir, tk, sk);
    PathJoinDifferentLengthDistinct(workDir, tr, tk);
    PathJoinDifferentLengthDistinct(workDir, tr, sk);
    PathJoinDifferentLengthDistinct(workDir, sr, tk);
    PathJoinDifferentLengthDistinct(workDir, sr, sk);
  }

  // ---------------------------------------------------------------------------
  // Extracting partitions.

  /** A call into the partition extractor: from an image file into a partition file. */
  datatype Extraction = ExtractRoot(image: string, dest: string) | ExtractKernel(image: string, dest: string)

  /** The extractions done, or the invalid partition name met and the extractions done before it. */
  datatype ExtractOutcome = Extracted(calls: seq<Extraction>) | InvalidPartition(name: string, callsBefore: seq<Extraction>)

  predicate KnownPartition(name: string) {
    name == Rootfs || name == Kernel
  }

  /** The extractions for one partition: the target's, then the source's when there is a source image. */
  function PartitionExtractions(name: string, tgtImage: string, srcImage: string, tgtDest: string,
                                srcDest: string, hasSrc: bool): (calls: seq<Extraction>)
    requires KnownPartition(name)
    ensures |calls| == if hasSrc then 2 else 1
    ensures calls[0].image == tgtImage && calls[0].dest == tgtDest
    ensures hasSrc ==> calls[1].image == srcImage && calls[1].dest == srcDest
    ensures forall c :: c in calls ==> (c.ExtractRoot? <==> name == Rootfs)
  {
    if name == Rootfs then
      [ExtractRoot(tgtImage, tgtDest)] + (if hasSrc then [ExtractRoot(srcImage, srcDest)] else [])
    else
      [ExtractKernel(tgtImage, tgtDest)] + (if hasSrc then [ExtractKernel(srcImage, srcDest)] else [])
  }

  /** The extractions for the first names, all of them known. */
  function ExtractionsOf(names: seq<string>, tgt: seq<string>, src: seq<string>, tgtImage: string,
                         srcImage: string, hasSrc: bool): (calls: seq<Extraction>)
    requires |tgt| >= |names| && |src| >= |names|
    requires forall i :: 0 <= i < |names| ==> KnownPartition(names[i])
    ensures |calls| == |names| * (if hasSrc then 2 else 1)
  {
    if |names| == 0 then []
    else
      var n := |names| - 1;
      ExtractionsOf(names[..n], tgt, src, tgtImage, srcImage, hasSrc)
        + PartitionExtractions(names[n], tgtImage, srcImage, tgt[n], src[n], hasSrc)
  }

  /** Extending the names by one known name extends the extractions by that name's. */
  lemma ExtractionsOfNext(names: seq<string>, idx: nat, tgt: seq<string>, src: seq<string>, tgtImage: string,
                          srcImage: string, hasSrc: bool)
    requires idx < |names| && |tgt| >= |names| && |src| >= |names|
    requires forall i :: 0 <= i <= idx ==> KnownPartition(names[i])
    ensures ExtractionsOf(names[..idx + 1], tgt, src, tgtImage, srcImage, hasSrc)
         == ExtractionsOf(names[..idx], tgt, src, tgtImage, srcImage, hasSrc)
            + PartitionExtractions(names[idx], tgtImage, srcImage, tgt[idx], src[idx], hasSrc)
  {
    assert names[..idx + 1][..idx] == names[..idx];
  }

  /** The position of the first name that is not a known partition, or the number of names. */
  function FirstUnknown(names: seq<string>): (k: nat)
    ensures k <= |names|
    ensures forall i :: 0 <= i < k ==> KnownPartition(names[i])
    ensures k < |names| ==> !KnownPartition(names[k])
  {
    if |names| == 0 then 0
    else if !KnownPartition(names[0]) then 0
    else 1 + FirstUnknown(names[1..])
  }

  /** What extracting the partitions of `names` does, in order. */
  function ExtractionPlan(names: seq<string>, tgt: seq<string>, src: seq<string>, tgtImage: string,
                          srcImage: string, hasSrc: bool): ExtractOutcome
    requires |tgt| >= |names| && |src| >= |names|
  {
    var k := FirstUnknown(names);
    if k < |names| then InvalidPartition(names[k], ExtractionsOf(names[..k], tgt, src, tgtImage, srcImage, hasSrc))
    else Extracted(ExtractionsOf(names, tgt, src, tgtImage, srcImage, hasSrc))
  }

  /** Extracting fails exactly when some name is neither "root" nor "kernel". */
  lemma ExtractionFailsIffUnknownName(names: seq<string>, tgt: seq<string>, src: seq<string>,
                                      tgtImage: string, srcImage: string, hasSrc: bool)
    requires |tgt| >= |names| && |src| >= |names|
    ensures ExtractionPlan(names, tgt, src, tgtImage, srcImage, hasSrc).InvalidPartition?
        <==> exists i :: 0 <= i < |names| && !KnownPartition(names[i])
  {
  }

  /**
    Every root and kernel payload extracts its target partitions, and its
    source partitions exactly when it has a source image; a DLC's single
    partition is refused, which is why DLC payloads skip extraction.
  */
  lemma ExtractionOfLayouts(workDir: string, dlc: Option<DlcIdentity>, hasSrc: bool)
    ensures var p := Partitions(workDir, dlc);
      var plan := ExtractionPlan(p.names, p.tgt, p.src, TgtImageFile(workDir), SrcImageFile(workDir), hasSrc);
      && (dlc.Some? ==> plan == InvalidPartition(p.names[0], []))
      && (dlc.None? ==>
            && plan.Extracted?
            && plan.calls[0] == ExtractRoot(TgtImageFile(workDir), p.tgt[0])
            && |plan.calls| == if hasSrc then 4 else 2)
  {
    var p := Partitions(workDir, dlc);
    if dlc.Some? {
      var d := dlc.value;
      assert p.names[0] == "dlc/" + d.dlcId + "/" + d.dlcPackage;
      assert p.names[0][0] == 'd';
      assert !KnownPartition(p.names[0]);
      assert p.names[..0] == [];
    } else {
      assert FirstUnknown(p.names[1..]) == 1 by {
        assert p.names[1..] == [Kernel];
        assert p.names[1..][1..] == [];
      }
      var tgt, src := TgtImageFile(workDir), SrcImageFile(workDir);
      assert p.names[..1] == [Rootfs] && p.names[..1][..0] == [];
      var first := ExtractionsOf(p.names[..1], p.tgt, p.src, tgt, src, hasSrc);
      assert first == PartitionExtractions(Rootfs, tgt, src, p.tgt[0], p.src[0], hasSrc);
    }
  }

  // ---------------------------------------------------------------------------
  // Signer results.

  /** Why the signer's results were refused. */
  datatype SignerError =
    | SigningFailed
    | HashCountMismatch(signed: nat, hashes: nat)
    | SignatureCountMismatch(count: nat, expected: nat)
    | SignatureSizeMismatch(size: nat, expected: nat)
    | MetadataSignatureCount(count: nat)

  /** The signatures of one hash: one per key set, each of its key's size. */
  predicate WellSized(sigs: seq<Bytes>) {
    |sigs| == |PayloadSignatureSizesBytes|
    && forall j :: 0 <= j < |sigs| ==> |sigs[j]| == PayloadSignatureSizesBytes[j]
  }

  /** The first size mismatch between signatures and expected sizes, read pairwise. */
  function FirstSizeMismatch(sigs: seq<Bytes>, sizes: seq<nat>): (e: Option<SignerError>)
    requires |sigs| == |sizes|
    ensures e.None? <==> forall j :: 0 <= j < |sigs| ==> |sigs[j]| == sizes[j]
  {
    if |sigs| == 0 then None
    else if |sigs[0]| != sizes[0] then Some(SignatureSizeMismatch(|sigs[0]|, sizes[0]))
    else FirstSizeMismatch(sigs[1..], sizes[1..])
  }

  /** What is wrong with one hash's signatures: first their count, then their sizes. */
  function SignaturesError(sigs: seq<Bytes>): (e: Option<SignerError>)
    ensures e.None? <==> WellSized(sigs)
  {
    if |sigs| != |PayloadSignatureSizesBytes| then
      Some(SignatureCountMismatch(|sigs|, |PayloadSignatureSizesBytes|))
    else FirstSizeMismatch(sigs, PayloadSignatureSizesBytes)
  }

  /** The error of the first hash whose signatures are wrong. */
  function FirstHashError(hashesSigs: seq<seq<Bytes>>): (e: Option<SignerError>)
    ensures e.None? <==> forall i :: 0 <= i < |hashesSigs| ==> WellSized(hashesSigs[i])
  {
    if |hashesSigs| == 0 then None
    else match SignaturesError(hashesSigs[0])
      case Some(err) => Some(err)
      case None => FirstHashError(hashesSigs[1..])
  }

  /**
    The signer's answer for `hashes`, checked: it must exist, have one entry
    per hash, and each entry one signature per key set of that key's size.
  */
  function SignHashes(hashes: seq<Bytes>, hashesSigs: Option<seq<seq<Bytes>>>): (r: Result<seq<seq<Bytes>>, SignerError>)
    ensures r.Success? <==>
      && hashesSigs.Some? && |hashesSigs.value| == |hashes|
      && forall i :: 0 <= i < |hashesSigs.value| ==> WellSized(hashesSigs.value[i])
    ensures r.Success? ==> r.value == hashesSigs.value
    ensures hashesSigs.None? ==> r == Failure(SigningFailed)
    ensures hashesSigs.Some? && |hashesSigs.value| != |hashes| ==>
      r == Failure(HashCountMismatch(|hashesSigs.value|, |hashes|))
  {
    match hashesSigs
    case None => Failure(SigningFailed)
    case Some(sigs) =>
      if |sigs| != |hashes| then Failure(HashCountMismatch(|sigs|, |hashes|))
      else match FirstHashError(sigs)
        case Some(err) => Failure(err)
        case None => Success(sigs)
  }

  /** The error reported is that of the first hash whose signatures are wrong. */
  lemma {:induction false} FirstBadHashIsReported(hashes: seq<Bytes>, hashesSigs: seq<seq<Bytes>>, k: nat)
    requires |hashesSigs| == |hashes| && k < |hashesSigs|
    requires forall i :: 0 <= i < k ==> WellSized(hashesSigs[i])
    requires !WellSized(hashesSigs[k])
    ensures SignHashes(hashes, Some(hashesSigs)) == Failure(SignaturesError(hashesSigs[k]).value)
  {
    FirstHashErrorAt(hashesSigs, k);
  }

  lemma {:induction false} FirstHashErrorAt(hashesSigs: seq<seq<Bytes>>, k: nat)
    requires k < |hashesSigs|
    requires forall i :: 0 <= i < k ==> WellSized(hashesSigs[i])
    requires !WellSized(hashesSigs[k])
    ensures FirstHashError(hashesSigs) == SignaturesError(hashesSigs[k])
    decreases k
  {
    if k > 0 {
      assert WellSized(hashesSigs[0]);
      FirstHashErrorAt(hashesSigs[1..], k - 1);
    }
  }

  // ---------------------------------------------------------------------------
  // Storing metadata signatures.

  /** What the payload description records; its hashes are not modelled. */
  datatype PayloadDescription = PayloadDescription(
    version: int,
    hashedFile: string,
    metadataSize: int,
    metadataSignature: Option<Bytes>)

  /** Which signer signs the payload. */
  datatype Signer = NoSigner | OfficialSigner(build: GsPaths.Build) | UnofficialSigner(privateKey: string)

  function TestingKey(chromiteDir: string): string {
    PathJoinAll(chromiteDir, ["ssh_keys", "testing_rsa"])
  }

  /**
    The signer for a build and the private key kept: an official-bucket
    build is signed by the official signer and no private key is kept;
    anything else is signed with the given key, or the testing key.
  */
  function SignerFor(build: Option<GsPaths.Build>, privateKey: Option<string>, chromiteDir: string): (r: (Signer, Option<string>))
    ensures build.Some? && build.value.bucket == GsPaths.ReleasesBucket <==> r.0.OfficialSigner?
    ensures r.0.OfficialSigner? ==> r.0.build == build.value && r.1.None?
    ensures !r.0.OfficialSigner? ==> r.1.Some? && r.0 == UnofficialSigner(r.1.value)
    ensures !r.0.OfficialSigner? && GsPaths.Truthy(privateKey) ==> r.1 == privateKey
    ensures !r.0.OfficialSigner? && !GsPaths.Truthy(privateKey) ==> r.1 == Some(TestingKey(chromiteDir))
  {
    if build.Some? && build.value.bucket == GsPaths.ReleasesBucket then
      (OfficialSigner(build.value), None)
    else
      var key := if GsPaths.Truthy(privateKey) then privateKey.value else TestingKey(chromiteDir);
      (UnofficialSigner(key), Some(key))
  }

  /** An unofficial signer always has a non-empty key when the checkout directory is known. */
  lemma UnofficialKeyIsNeverEmpty(build: Option<GsPaths.Build>, privateKey: Option<string>, chromiteDir: string)
    ensures var r := SignerFor(build, privateKey, chromiteDir);
      r.0.UnofficialSigner? ==> r.0.privateKey != ""
  {
    var r := SignerFor(build, privateKey, chromiteDir);
    if r.0.UnofficialSigner? && !GsPaths.Truthy(privateKey) {
      var k := TestingKey(chromiteDir);
      PathJoinEndsWith(PathJoin(chromiteDir, "ssh_keys"), "testing_rsa");
      assert k == PathJoin(PathJoin(chromiteDir, "ssh_keys"), "testing_rsa");
    }
  }

  // ---------------------------------------------------------------------------
  // The command-line argument builder.

  /** Python's `str` of a string or of `None`. */
  function Str(v: Option<string>): string {
    if v.None? then "None" else v.value
  }

  /**
    "<flag>=<value>": the dictionary's value when it is truthy, else the
    default. The argument is always produced, even without a value.
  */
  function BuildArg(flag: string, dict: map<string, string>, key: string, default: Option<string>): (arg: string)
    ensures StartsWith(arg, flag + "=")
  {
    var val := if key in dict && dict[key] != "" then Some(dict[key]) else default;
    flag + "=" + Str(val)
  }

  /**
    A truthy value is passed on; without one the default is, and without a
    default the argument reads "<flag>=None".
  */
  lemma BuildArgValue(flag: string, dict: map<string, string>, key: string, default: Option<string>)
    ensures key in dict && dict[key] != "" ==> BuildArg(flag, dict, key, default)[|flag| + 1..] == dict[key]
    ensures !(key in dict && dict[key] != "") && default.Some? ==>
      BuildArg(flag, dict, key, default)[|flag| + 1..] == default.value
    ensures !(key in dict && dict[key] != "") && default.None? ==>
      BuildArg(flag, dict, key, default) == flag + "=None"
  {
    var arg := BuildArg(flag, dict, key, default);
    assert |flag + "="| == |flag| + 1;
    assert arg[|flag| + 1..] == Str(if key in dict && dict[key] != "" then Some(dict[key]) else default);
  }

  // ---------------------------------------------------------------------------
  // The payload generator.

  class PaygenPayload {
    const payload: GsPaths.Payload
    /** Set when the target image is a DLC module image. */
    const dlc: Option<DlcIdentity>
    const workDir: string
    const verify: bool
    var privateKey: Option<string>

    const srcImageFile: string
    const tgtImageFile: string
    const payloadFile: string
    const logFile: string
    const descriptionFile: string
    const metadataSizeFile: string
    var metadataSize: int
    const metadataHashFile: string
    const payloadHashFile: string
    const postinstConfigFile: string

    const partitionNames: seq<string>
    const tgtPartitions: seq<string>
    const srcPartitions: seq<string>

    var signer: Signer
    /** Set up only when the payload is signed. */
    var signedPayloadFile: Option<string>
    var metadataSignatureFile: Option<string>

    /** A payload signed exactly when a signer is set up, with its signature files beside it. */
    predicate Valid()
      reads this
    {
      && |tgtPartitions| == |partitionNames| && |srcPartitions| == |partitionNames|
      && (signer.NoSigner? <==> signedPayloadFile.None?)
      && signedPayloadFile == (if signer.NoSigner? then None else Some(payloadFile + ".signed"))
      && metadataSignatureFile == (if signer.NoSigner? then None else Some(MetadataUri(payloadFile + ".signed")))
    }

    constructor(payload: GsPaths.Payload, dlc: Option<DlcIdentity>, workDir: string, sign: bool,
                verify: bool, privateKey: Option<string>, chromiteDir: string)
      ensures Valid()
      ensures this.payload == payload && this.dlc == dlc && this.workDir == workDir && this.verify == verify
      ensures srcImageFile == SrcImageFile(workDir) && tgtImageFile == TgtImageFile(workDir)
      ensures payloadFile == PathJoin(workDir, "delta.bin") && logFile == PathJoin(workDir, "delta.log")
      ensures descriptionFile == PathJoin(workDir, "delta.json") && metadataSize == 0
      ensures metadataSizeFile == PathJoin(workDir, "metadata_size.txt")
      ensures metadataHashFile == PathJoin(workDir, "metadata_hash")
      ensures payloadHashFile == PathJoin(workDir, "payload_hash")
      ensures postinstConfigFile == PathJoin(workDir, "postinst_config")
      ensures PartitionLayout(partitionNames, tgtPartitions, srcPartitions) == Partitions(workDir, dlc)
      ensures !sign ==> signer == NoSigner && this.privateKey == privateKey
      ensures sign ==> (signer, this.privateKey) == SignerFor(Some(payload.build), privateKey, chromiteDir)
    {
      this.payload := payload;
      this.dlc := dlc;
      this.workDir := workDir;
      this.verify := verify;
      this.privateKey := privateKey;
      srcImageFile := SrcImageFile(workDir);
      tgtImageFile := TgtImageFile(workDir);
      payloadFile := PathJoin(workDir, "delta.bin");
      logFile := PathJoin(workDir, "delta.log");
      descriptionFile := PathJoin(workDir, "delta.json");
      metadataSizeFile := PathJoin(workDir, "metadata_size.txt");
      metadataSize := 0;
      metadataHashFile := PathJoin(workDir, "metadata_hash");
      payloadHashFile := PathJoin(workDir, "payload_hash");
      postinstConfigFile := PathJoin(workDir, "postinst_config");
      var layout := Partitions(workDir, dlc);
      partitionNames := layout.names;
      tgtPartitions := layout.tgt;
      srcPartitions := layout.src;
      signer := NoSigner;
      signedPayloadFile := None;
      metadataSignatureFile := None;
      new;
      if sign {
        SetupSigner(Some(payload.build), chromiteDir);
      }
    }

    /** Names the signed payload and its metadata signature, and picks the signer. */
    method SetupSigner(build: Option<GsPaths.Build>, chromiteDir: string)
      requires Valid()
      modifies this
      ensures signedPayloadFile == Some(payloadFile + ".signed")
      ensures metadataSignatureFile == Some(MetadataUri(payloadFile + ".signed"))
      ensures (signer, privateKey) == SignerFor(build, old(privateKey), chromiteDir)
      ensures metadataSize == old(metadataSize)
      ensures Valid()
    {
      signedPayloadFile := Some(payloadFile + ".signed");
      metadataSignatureFile := Some(MetadataUri(payloadFile + ".signed"));
      if build.Some? && build.value.bucket == GsPaths.ReleasesBucket {
        signer := OfficialSigner(build.value);
        privateKey := None;
      } else {
        if !GsPaths.Truthy(privateKey) {
          privateKey := Some(TestingKey(chromiteDir));
        }
        signer := UnofficialSigner(privateKey.value);
      }
    }

    /** Extracts the root and kernel partitions, the source's only when there is a source image. */
    method ExtractPartitions() returns (r: ExtractOutcome)
      requires Valid()
      ensures r == ExtractionPlan(partitionNames, tgtPartitions, srcPartitions, tgtImageFile, srcImageFile,
                                  payload.srcImage.Some?)
    {
      var hasSrc := payload.srcImage.Some?;
      var names, tgt, src := partitionNames, tgtPartitions, srcPartitions;
      var calls: seq<Extraction> := [];
      var idx := 0;
      while idx < |names|
        invariant idx <= |names|
        invariant forall i :: 0 <= i < idx ==> KnownPartition(names[i])
        invariant calls == ExtractionsOf(names[..idx], tgt, src, tgtImageFile, srcImageFile, hasSrc)
      {
        var name := names[idx];
        if !KnownPartition(name) {
          FirstUnknownIs(names, idx);
          return InvalidPartition(name, calls);
        }
        ExtractionsOfNext(names, idx, tgt, src, tgtImageFile, srcImageFile, hasSrc);
        if name == Rootfs {
          calls := calls + [ExtractRoot(tgtImageFile, tgt[idx])];
          if hasSrc {
            calls := calls + [ExtractRoot(srcImageFile, src[idx])];
          }
        } else {
          calls := calls + [ExtractKernel(tgtImageFile, tgt[idx])];
          if hasSrc {
            calls := calls + [ExtractKernel(srcImageFile, src[idx])];
          }
        }
        idx := idx + 1;
      }
      assert names[..idx] == names;
      FirstUnknownIs(names, idx);
      r := Extracted(calls);
    }

    /** The single metadata signature written to the metadata-signature file, and where. */
    function MetadataSignatureWrite(signatures: seq<Bytes>): (r: Result<(string, Bytes), SignerError>)
      reads this
      requires Valid() && !signer.NoSigner?
      ensures r.Success? <==> |signatures| == 1
      ensures r.Success? ==> r.value == (metadataSignatureFile.value, signatures[0])
      ensures r.Failure? ==> r.error == MetadataSignatureCount(|signatures|)
    {
      if |signatures| != 1 then Failure(MetadataSignatureCount(|signatures|))
      else Success((metadataSignatureFile.value, signatures[0]))
    }

    /**
      The payload description: version 2, the hashes of the signed payload
      when there is a signer, and at most one metadata signature.
    */
    function Description(metadataSignatures: Option<seq<Bytes>>): (r: Result<PayloadDescription, SignerError>)
      reads this
      requires Valid()
      ensures r.Success? <==> metadataSignatures.None? || |metadataSignatures.value| <= 1
      ensures r.Success? ==> r.value.version == DescriptionFileVersion && r.value.metadataSize == metadataSize
      ensures r.Success? ==> r.value.hashedFile == if signer.NoSigner? then payloadFile else signedPayloadFile.value
      ensures r.Success? ==>
        r.value.metadataSignature == if metadataSignatures.Some? && |metadataSignatures.value| == 1
                                     then Some(metadataSignatures.value[0]) else None
    {
      var hashed := if signer.NoSigner? then payloadFile else signedPayloadFile.value;
      if metadataSignatures.Some? && |metadataSignatures.value| > 0 then
        if |metadataSignatures.value| != 1 then Failure(MetadataSignatureCount(|metadataSignatures.value|))
        else Success(PayloadDescription(DescriptionFileVersion, hashed, metadataSize, Some(metadataSignatures.value[0])))
      else
        Success(PayloadDescription(DescriptionFileVersion, hashed, metadataSize, None))
    }

    /** Both stores accept one metadata signature and record the same one. */
    lemma StoresAgreeOnOneSignature(signatures: seq<Bytes>)
      requires Valid() && !signer.NoSigner?
      ensures MetadataSignatureWrite(signatures).Success? ==>
        && Description(Some(signatures)).Success?
        && Description(Some(signatures)).value.metadataSignature == Some(MetadataSignatureWrite(signatures).value.1)
      ensures |signatures| > 1 ==> MetadataSignatureWrite(signatures).Failure? && Description(Some(signatures)).Failure?
    {
    }
  }

  lemma {:induction false} FirstUnknownIs(names: seq<string>, k: nat)
    requires k <= |names|
    requires forall i :: 0 <= i < k ==> KnownPartition(names[i])
    requires k < |names| ==> !KnownPartition(names[k])
    ensures FirstUnknown(names) == k
    decreases k
  {
    if k > 0 {
      FirstUnknownIs(names[1..], k - 1);
    }
  }
}
