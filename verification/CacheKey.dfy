/** Length-framed transcripts: the bytes hashed into cache keys determine what they were made from. */
module CacheKey {
  import opened Common

  type Byte = n: nat | n < 256
  type Field = f: seq<Byte> | |f| < U64_LIMIT witness []
  type U32 = n: nat | n < 0x1_0000_0000
  type U64 = n: nat | n < U64_LIMIT

  datatype ImageFormat = Jpeg | Png

  datatype SourceFingerprint = SourceFingerprint(
    frameId: Field, ordinal: U64, time: U64, format: ImageFormat,
    imageWidth: U32, imageHeight: U32, viewportWidth: U32, viewportHeight: U32,
    scaleBits: U64, digest: Field)

  type Sources = s: seq<SourceFingerprint> | |s| < U64_LIMIT witness []

  datatype ImageIdentity = ImageIdentity(
    session: Field, target: Field, kind: Field, generator: Field, version: Field,
    adapter: Field, decoder: Field, parameters: Field, sources: Sources)

  datatype Selector = Selector(name: Field, version: Field, parametersDigest: Field)

  datatype VideoIdentity = VideoIdentity(
    session: Field, target: Field, adapter: Field, parameters: Field, selector: Option<Selector>, sources: Sources)

  // Big-endian numbers

  function Power(width: nat): nat {
    if width == 0 then 1 else 256 * Power(width - 1)
  }

  function BigEndian(n: nat, width: nat): (r: seq<Byte>)
    ensures |r| == width
  {
    if width == 0 then [] else BigEndian(n / 256, width - 1) + [n % 256]
  }

  function FromBigEndian(bytes: seq<Byte>): nat {
    if bytes == [] then 0 else FromBigEndian(bytes[..|bytes| - 1]) * 256 + bytes[|bytes| - 1]
  }

  lemma {:induction false} BigEndianRoundTrip(n: nat, width: nat)
    requires n < Power(width)
    ensures FromBigEndian(BigEndian(n, width)) == n
  {
    if width > 0 {
      BigEndianRoundTrip(n / 256, width - 1);
      var r := BigEndian(n, width);
      assert r[..|r| - 1] == BigEndian(n / 256, width - 1);
    }
  }

  lemma Powers()
    ensures Power(4) == 0x1_0000_0000 && Power(8) == U64_LIMIT
  {
    assert Power(1) == 256 && Power(2) == 65536 && Power(3) == 0x100_0000;
    assert Power(5) == 0x100_0000_0000 && Power(6) == 0x1_0000_0000_0000 && Power(7) == 0x100_0000_0000_0000;
  }

  lemma SameNumber32(a: U32, b: U32)
    requires BigEndian(a, 4) == BigEndian(b, 4)
    ensures a == b
  {
    Powers();
    BigEndianRoundTrip(a, 4);
    BigEndianRoundTrip(b, 4);
  }

  lemma SameNumber64(a: U64, b: U64)
    requires BigEndian(a, 8) == BigEndian(b, 8)
    ensures a == b
  {
    Powers();
    BigEndianRoundTrip(a, 8);
    BigEndianRoundTrip(b, 8);
  }

  // Framing

  /** Every field preceded by its length in eight bytes. */
  function Frame(fields: seq<Field>): seq<Byte> {
    if fields == [] then []
    else Frame(fields[..|fields| - 1]) + BigEndian(|fields[|fields| - 1]|, 8) + fields[|fields| - 1]
  }

  lemma {:induction false} FrameHead(fields: seq<Field>)
    requires fields != []
    ensures Frame(fields) == BigEndian(|fields[0]|, 8) + fields[0] + Frame(fields[1..])
  {
    hide BigEndian;
    var last := |fields| - 1;
    if last == 0 {
      assert fields[..0] == [] && fields[1..] == [];
    } else {
      var rest := fields[1..];
      FrameHead(fields[..last]);
      assert fields[..last][1..] == rest[..last - 1] && fields[..last][0] == fields[0];
      assert rest != [] && rest[|rest| - 1] == fields[last];
      assert Frame(rest) == Frame(rest[..last - 1]) + BigEndian(|fields[last]|, 8) + fields[last];
      assert Frame(fields) == Frame(fields[..last]) + BigEndian(|fields[last]|, 8) + fields[last];
      hide Frame;
    }
  }

  /** Two transcripts with the same bytes have the same fields. */
  lemma {:induction false} FrameInjective(a: seq<Field>, b: seq<Field>)
    requires Frame(a) == Frame(b)
    ensures a == b
    decreases |a|
  {
    if a == [] || b == [] {
      if a != [] { FrameHead(a); }
      if b != [] { FrameHead(b); }
    } else {
      FrameHead(a);
      FrameHead(b);
      var frame := Frame(a);
      hide Frame, BigEndian;
      assert frame[..8] == BigEndian(|a[0]|, 8) == BigEndian(|b[0]|, 8);
      SameNumber64(|a[0]|, |b[0]|);
      var n := |a[0]|;
      assert frame[8..8 + n] == a[0] == b[0];
      assert frame[8 + n..] == Frame(a[1..]) == Frame(b[1..]);
      FrameInjective(a[1..], b[1..]);
      assert a == [a[0]] + a[1..] && b == [b[0]] + b[1..];
    }
  }

  /** The bytes fed to the hash so far; finishing hashes exactly these bytes. */
  class FramedHasher {
    var preimage: seq<Byte>
    ghost var fields: seq<Field>

    ghost predicate Valid()
      reads this
    {
      preimage == Frame(fields)
    }

    constructor (domain: Field)
      ensures Valid() && fields == [domain]
    {
      preimage := BigEndian(|domain|, 8) + domain;
      fields := [domain];
      new;
      assert [domain][..0] == [];
    }

    method WriteBytes(value: Field)
      requires Valid()
      modifies this
      ensures Valid() && fields == old(fields) + [value]
    {
      preimage := preimage + BigEndian(|value|, 8);
      preimage := preimage + value;
      fields := fields + [value];
      assert fields[..|fields| - 1] == old(fields);
    }

    method WriteU32(value: U32)
      requires Valid()
      modifies this
      ensures Valid() && fields == old(fields) + [BigEndian(value, 4)]
    {
      WriteBytes(BigEndian(value, 4));
    }

    method WriteU64(value: U64)
      requires Valid()
      modifies this
      ensures Valid() && fields == old(fields) + [BigEndian(value, 8)]
    {
      WriteBytes(BigEndian(value, 8));
    }

    method WriteSource(source: SourceFingerprint)
      requires Valid()
      modifies this
      ensures Valid() && fields == old(fields) + SourceFields(source)
    {
      hide SourceFields, BigEndian, Frame;
      WriteBytes(source.frameId);
      WriteU64(source.ordinal);
      WriteU64(source.time);
      WriteBytes(FormatName(source.format));
      WriteU32(source.imageWidth);
      WriteU32(source.imageHeight);
      WriteU32(source.viewportWidth);
      WriteU32(source.viewportHeight);
      WriteU64(source.scaleBits);
      WriteBytes(source.digest);
      SourceFieldsInOrder(source, old(fields));
    }

    /** The number of sources, then each source in order. */
    method WriteSources(sources: Sources)
      requires Valid()
      modifies this
      ensures Valid() && fields == old(fields) + [BigEndian(|sources|, 8)] + SourceListFields(sources)
    {
      WriteU64(|sources|);
      ghost var before := fields;
      var i := 0;
      assert before + SourceListFields(sources[..0]) == before;
      while i < |sources|
        invariant 0 <= i <= |sources| && Valid()
        invariant fields == before + SourceListFields(sources[..i])
      {
        WriteSource(sources[i]);
        assert sources[..i + 1][..i] == sources[..i];
        i := i + 1;
      }
      assert sources[..i] == sources;
    }
  }

  const JPEG: Field := [106, 112, 101, 103]
  const PNG: Field := [112, 110, 103]

  function FormatName(format: ImageFormat): Field {
    if format.Jpeg? then JPEG else PNG
  }

  /** The ten fields of one source. */
  function SourceFields(s: SourceFingerprint): (r: seq<Field>)
    ensures |r| == 10
  {
    [s.frameId, BigEndian(s.ordinal, 8), BigEndian(s.time, 8), if s.format.Jpeg? then JPEG else PNG,
     BigEndian(s.imageWidth, 4), BigEndian(s.imageHeight, 4), BigEndian(s.viewportWidth, 4), BigEndian(s.viewportHeight, 4),
     BigEndian(s.scaleBits, 8), s.digest]
  }

  lemma SourceFieldsInOrder(s: SourceFingerprint, before: seq<Field>)
    ensures before + [s.frameId] + [BigEndian(s.ordinal, 8)] + [BigEndian(s.time, 8)] + [FormatName(s.format)]
      + [BigEndian(s.imageWidth, 4)] + [BigEndian(s.imageHeight, 4)] + [BigEndian(s.viewportWidth, 4)]
      + [BigEndian(s.viewportHeight, 4)] + [BigEndian(s.scaleBits, 8)] + [s.digest]
      == before + SourceFields(s)
  {
    hide BigEndian;
  }

  function SourceListFields(sources: seq<SourceFingerprint>): (r: seq<Field>)
    ensures |r| == 10 * |sources|
  {
    if sources == [] then [] else SourceListFields(sources[..|sources| - 1]) + SourceFields(sources[|sources| - 1])
  }

  lemma SameSource(a: SourceFingerprint, b: SourceFingerprint)
    requires SourceFields(a) == SourceFields(b)
    ensures a == b
  {
    var x, y := SourceFields(a), SourceFields(b);
    assert forall i :: 0 <= i < 10 ==> x[i] == y[i];
    assert a.frameId == b.frameId && a.digest == b.digest && FormatName(a.format) == FormatName(b.format);
    assert |JPEG| != |PNG|;
    hide BigEndian;
    SameNumber64(a.ordinal, b.ordinal);
    SameNumber64(a.time, b.time);
    SameNumber64(a.scaleBits, b.scaleBits);
    SameNumber32(a.imageWidth, b.imageWidth);
    SameNumber32(a.imageHeight, b.imageHeight);
    SameNumber32(a.viewportWidth, b.viewportWidth);
    SameNumber32(a.viewportHeight, b.viewportHeight);
  }

  lemma {:induction false} SameSources(a: seq<SourceFingerprint>, b: seq<SourceFingerprint>)
    requires SourceListFields(a) == SourceListFields(b)
    ensures a == b
  {
    assert |a| == |b|;
    if a != [] {
      var n := |a| - 1;
      SourceListParts(a);
      SourceListParts(b);
      hide SourceListFields, SourceFields;
      SameSources(a[..n], b[..n]);
      SameSource(a[n], b[n]);
      assert a == a[..n] + [a[n]] && b == b[..n] + [b[n]];
    }
  }

  lemma SourceListParts(sources: seq<SourceFingerprint>)
    requires sources != []
    ensures var n, x := |sources| - 1, SourceListFields(sources);
      x[..10 * n] == SourceListFields(sources[..n]) && x[10 * n..] == SourceFields(sources[n])
  {
    var n := |sources| - 1;
    var before, last := SourceListFields(sources[..n]), SourceFields(sources[n]);
    assert SourceListFields(sources) == before + last && |before| == 10 * n;
    hide SourceListFields, SourceFields;
  }

  // Image and video keys

  const SCHEMA_VERSION: U32 := 1

  /** "krometrail-artifact-cache-key" */
  const IMAGE_DOMAIN: Field := [107, 114, 111, 109, 101, 116, 114, 97, 105, 108, 45, 97, 114, 116, 105, 102, 97, 99, 116,
                                45, 99, 97, 99, 104, 101, 45, 107, 101, 121]

  /** "krometrail-video-cache-key" */
  const VIDEO_DOMAIN: Field := [107, 114, 111, 109, 101, 116, 114, 97, 105, 108, 45, 118, 105, 100, 101, 111,
                                45, 99, 97, 99, 104, 101, 45, 107, 101, 121]

  /** "no-selection" */
  const NO_SELECTION: Field := [110, 111, 45, 115, 101, 108, 101, 99, 116, 105, 111, 110]

  /** "krometrail-visual-epoch-v1" */
  const EPOCH_DOMAIN: Field := [107, 114, 111, 109, 101, 116, 114, 97, 105, 108, 45, 118, 105, 115, 117, 97, 108,
                                45, 101, 112, 111, 99, 104, 45, 118, 49]

  function ImageFields(id: ImageIdentity): seq<Field> {
    [IMAGE_DOMAIN, BigEndian(SCHEMA_VERSION, 4), id.session, id.target, id.kind, id.generator, id.version,
     id.adapter, id.decoder, id.parameters, BigEndian(|id.sources|, 8)] + SourceListFields(id.sources)
  }

  function SelectorFields(selector: Option<Selector>): seq<Field> {
    match selector
    case Some(s) => [s.name, s.version, s.parametersDigest]
    case None => [NO_SELECTION]
  }

  /** Generator name and version are constants of the program. */
  function VideoFields(id: VideoIdentity, name: Field, version: Field): seq<Field> {
    [VIDEO_DOMAIN, BigEndian(SCHEMA_VERSION, 4), id.session, id.target, name, version, id.adapter, id.parameters]
      + SelectorFields(id.selector) + [BigEndian(|id.sources|, 8)] + SourceListFields(id.sources)
  }

  /** The bytes hashed into an image artifact's cache key. */
  method ImagePreimage(id: ImageIdentity) returns (preimage: seq<Byte>)
    ensures preimage == Frame(ImageFields(id))
  {
    hide BigEndian, SourceListFields, Frame;
    var transcript := new FramedHasher(IMAGE_DOMAIN);
    transcript.WriteU32(SCHEMA_VERSION);
    transcript.WriteBytes(id.session);
    transcript.WriteBytes(id.target);
    transcript.WriteBytes(id.kind);
    transcript.WriteBytes(id.generator);
    transcript.WriteBytes(id.version);
    transcript.WriteBytes(id.adapter);
    transcript.WriteBytes(id.decoder);
    transcript.WriteBytes(id.parameters);
    transcript.WriteSources(id.sources);
    assert transcript.fields == ImageFields(id);
    preimage := transcript.preimage;
  }

  /** The bytes hashed into a video's cache key. */
  method VideoPreimage(id: VideoIdentity, name: Field, version: Field) returns (preimage: seq<Byte>)
    ensures preimage == Frame(VideoFields(id, name, version))
  {
    hide BigEndian, SourceListFields, Frame;
    var transcript := new FramedHasher(VIDEO_DOMAIN);
    transcript.WriteU32(SCHEMA_VERSION);
    transcript.WriteBytes(id.session);
    transcript.WriteBytes(id.target);
    transcript.WriteBytes(name);
    transcript.WriteBytes(version);
    transcript.WriteBytes(id.adapter);
    transcript.WriteBytes(id.parameters);
    ghost var head := transcript.fields;
    assert head == [VIDEO_DOMAIN, BigEndian(SCHEMA_VERSION, 4), id.session, id.target, name, version, id.adapter, id.parameters];
    if id.selector.Some? {
      transcript.WriteBytes(id.selector.value.name);
      transcript.WriteBytes(id.selector.value.version);
      transcript.WriteBytes(id.selector.value.parametersDigest);
    } else {
      transcript.WriteBytes(NO_SELECTION);
    }
    assert transcript.fields == head + SelectorFields(id.selector);
    hide SelectorFields;
    transcript.WriteSources(id.sources);
    assert transcript.fields == VideoFields(id, name, version);
    preimage := transcript.preimage;
  }

  function SourcesFields(sources: Sources, domain: Field): seq<Field> {
    [domain, BigEndian(|sources|, 8)] + SourceListFields(sources)
  }

  /** The bytes of a source fingerprint hash, for whichever domain. */
  method SourcesPreimage(sources: Sources, domain: Field) returns (preimage: seq<Byte>)
    ensures preimage == Frame(SourcesFields(sources, domain))
  {
    hide BigEndian, SourceListFields, Frame;
    var transcript := new FramedHasher(domain);
    transcript.WriteSources(sources);
    assert transcript.fields == SourcesFields(sources, domain);
    preimage := transcript.preimage;
  }

  /** Equal image transcripts come from equal identities, source by source. */
  lemma ImageKeyInjective(a: ImageIdentity, b: ImageIdentity)
    requires Frame(ImageFields(a)) == Frame(ImageFields(b))
    ensures a == b
  {
    FrameInjective(ImageFields(a), ImageFields(b));
    ImageParts(a);
    ImageParts(b);
    hide Frame, BigEndian, SourceListFields, ImageFields;
    SameSources(a.sources, b.sources);
  }

  lemma ImageParts(id: ImageIdentity)
    ensures var x := ImageFields(id);
      && |x| >= 11 && x[11..] == SourceListFields(id.sources)
      && x[2] == id.session && x[3] == id.target && x[4] == id.kind && x[5] == id.generator && x[6] == id.version
      && x[7] == id.adapter && x[8] == id.decoder && x[9] == id.parameters
  {
    hide BigEndian, SourceListFields;
  }

  /** Equal video transcripts come from equal identities: a missing selector cannot pass for one. */
  lemma VideoKeyInjective(a: VideoIdentity, b: VideoIdentity, name: Field, version: Field)
    requires Frame(VideoFields(a, name, version)) == Frame(VideoFields(b, name, version))
    ensures a == b
  {
    FrameInjective(VideoFields(a, name, version), VideoFields(b, name, version));
    VideoParts(a, name, version);
    VideoParts(b, name, version);
    hide Frame, VideoFields, BigEndian, SourceListFields, SelectorFields;
    SelectorLengths(a.selector, b.selector, |a.sources|, |b.sources|);
    SameSelector(a.selector, b.selector);
    SameSources(a.sources, b.sources);
  }

  lemma VideoParts(id: VideoIdentity, name: Field, version: Field)
    ensures var x, n := VideoFields(id, name, version), 8 + |SelectorFields(id.selector)|;
      && |x| == n + 1 + 10 * |id.sources|
      && x[8..n] == SelectorFields(id.selector) && x[n + 1..] == SourceListFields(id.sources)
      && x[2] == id.session && x[3] == id.target && x[6] == id.adapter && x[7] == id.parameters
  {
    hide BigEndian;
    var head := [VIDEO_DOMAIN, BigEndian(SCHEMA_VERSION, 4), id.session, id.target, name, version, id.adapter, id.parameters];
    var selector, count, rest := SelectorFields(id.selector), [BigEndian(|id.sources|, 8)], SourceListFields(id.sources);
    assert VideoFields(id, name, version) == head + selector + count + rest;
    hide SelectorFields, SourceListFields, VideoFields;
  }

  /** Ten fields a source: one selector field cannot be traded for three. */
  lemma SelectorLengths(a: Option<Selector>, b: Option<Selector>, m: nat, n: nat)
    requires |SelectorFields(a)| + 10 * m == |SelectorFields(b)| + 10 * n
    ensures |SelectorFields(a)| == |SelectorFields(b)| && m == n
  {
  }

  lemma SameSelector(a: Option<Selector>, b: Option<Selector>)
    requires SelectorFields(a) == SelectorFields(b)
    ensures a == b
  {
    var x, y := SelectorFields(a), SelectorFields(b);
    assert |x| == |y| && forall i :: 0 <= i < |x| ==> x[i] == y[i];
    if a.Some? && b.Some? {
      assert x[0] == a.value.name && x[1] == a.value.version && x[2] == a.value.parametersDigest;
      assert y[0] == b.value.name && y[1] == b.value.version && y[2] == b.value.parametersDigest;
    }
  }

  /** No image transcript is also a video transcript. */
  lemma ImageIsNotVideo(a: ImageIdentity, b: VideoIdentity, name: Field, version: Field)
    ensures Frame(ImageFields(a)) != Frame(VideoFields(b, name, version))
  {
    assert |IMAGE_DOMAIN| == 29 && |VIDEO_DOMAIN| == 26;
    assert ImageFields(a)[0] == IMAGE_DOMAIN && VideoFields(b, name, version)[0] == VIDEO_DOMAIN;
    hide Frame, ImageFields, VideoFields;
    if Frame(ImageFields(a)) == Frame(VideoFields(b, name, version)) {
      FrameInjective(ImageFields(a), VideoFields(b, name, version));
    }
  }

  /** A source fingerprint hash determines its domain and its sources. */
  lemma SourcesPreimageInjective(a: Sources, domainA: Field, b: Sources, domainB: Field)
    requires Frame(SourcesFields(a, domainA)) == Frame(SourcesFields(b, domainB))
    ensures domainA == domainB && a == b
  {
    FrameInjective(SourcesFields(a, domainA), SourcesFields(b, domainB));
    SourcesParts(a, domainA);
    SourcesParts(b, domainB);
    hide *;
    SameSources(a, b);
  }

  lemma SourcesParts(sources: Sources, domain: Field)
    ensures var x := SourcesFields(sources, domain);
      |x| >= 2 && x[0] == domain && x[2..] == SourceListFields(sources)
  {
    hide BigEndian, SourceListFields;
  }

  // Visual epochs

  /** What an epoch hash sees of a source: identity and geometry, not time, format or content. */
  datatype EpochPart = EpochPart(
    frameId: Field, imageWidth: U32, imageHeight: U32, viewportWidth: U32, viewportHeight: U32, scaleBits: U64)

  function PartOf(s: SourceFingerprint): EpochPart {
    EpochPart(s.frameId, s.imageWidth, s.imageHeight, s.viewportWidth, s.viewportHeight, s.scaleBits)
  }

  function PartFields(p: EpochPart): (r: seq<Field>)
    ensures |r| == 6
  {
    [p.frameId, BigEndian(p.imageWidth, 4), BigEndian(p.imageHeight, 4), BigEndian(p.viewportWidth, 4),
     BigEndian(p.viewportHeight, 4), BigEndian(p.scaleBits, 8)]
  }

  function EpochFields(sources: seq<SourceFingerprint>): (r: seq<Field>)
    ensures |r| == 6 * |sources|
  {
    if sources == [] then [] else EpochFields(sources[..|sources| - 1]) + PartFields(PartOf(sources[|sources| - 1]))
  }

  function EpochTranscript(sources: Sources): (r: seq<Field>)
    ensures |r| >= 2
  {
    [EPOCH_DOMAIN, BigEndian(|sources|, 8)] + EpochFields(sources)
  }

  method WriteEpochPart(transcript: FramedHasher, source: SourceFingerprint)
    requires transcript.Valid()
    modifies transcript
    ensures transcript.Valid() && transcript.fields == old(transcript.fields) + PartFields(PartOf(source))
  {
    hide BigEndian, Frame;
    transcript.WriteBytes(source.frameId);
    transcript.WriteU32(source.imageWidth);
    transcript.WriteU32(source.imageHeight);
    transcript.WriteU32(source.viewportWidth);
    transcript.WriteU32(source.viewportHeight);
    transcript.WriteU64(source.scaleBits);
  }

  method EpochPreimage(sources: Sources) returns (preimage: seq<Byte>)
    ensures preimage == Frame(EpochTranscript(sources))
  {
    hide BigEndian, Frame;
    var transcript := new FramedHasher(EPOCH_DOMAIN);
    transcript.WriteU64(|sources|);
    ghost var before := transcript.fields;
    assert before == [EPOCH_DOMAIN, BigEndian(|sources|, 8)];
    var i := 0;
    assert before + EpochFields(sources[..0]) == before;
    while i < |sources|
      invariant 0 <= i <= |sources| && transcript.Valid() && fresh(transcript)
      invariant transcript.fields == before + EpochFields(sources[..i])
    {
      WriteEpochPart(transcript, sources[i]);
      assert sources[..i + 1][..i] == sources[..i];
      i := i + 1;
    }
    assert sources[..i] == sources;
    preimage := transcript.preimage;
  }

  lemma SamePart(a: EpochPart, b: EpochPart)
    requires PartFields(a) == PartFields(b)
    ensures a == b
  {
    var x, y := PartFields(a), PartFields(b);
    assert forall i :: 0 <= i < 6 ==> x[i] == y[i];
    assert a.frameId == b.frameId;
    hide BigEndian;
    SameNumber32(a.imageWidth, b.imageWidth);
    SameNumber32(a.imageHeight, b.imageHeight);
    SameNumber32(a.viewportWidth, b.viewportWidth);
    SameNumber32(a.viewportHeight, b.viewportHeight);
    SameNumber64(a.scaleBits, b.scaleBits);
  }

  lemma {:induction false} SameEpochFields(a: seq<SourceFingerprint>, b: seq<SourceFingerprint>)
    requires |a| == |b|
    ensures EpochFields(a) == EpochFields(b) <==> forall i :: 0 <= i < |a| ==> PartOf(a[i]) == PartOf(b[i])
  {
    if a != [] {
      var n := |a| - 1;
      SameEpochFields(a[..n], b[..n]);
      var x, y := EpochFields(a), EpochFields(b);
      assert x[..6 * n] == EpochFields(a[..n]) && y[..6 * n] == EpochFields(b[..n]);
      assert x[6 * n..] == PartFields(PartOf(a[n])) && y[6 * n..] == PartFields(PartOf(b[n]));
      hide EpochFields, PartFields;
      if x == y { SamePart(PartOf(a[n]), PartOf(b[n])); }
      assert x == x[..6 * n] + x[6 * n..] && y == y[..6 * n] + y[6 * n..];
    }
  }

  /** Epoch hashes see the same bytes exactly when frames and geometry agree one by one. */
  lemma EpochPreimageIff(a: Sources, b: Sources)
    ensures Frame(EpochTranscript(a)) == Frame(EpochTranscript(b))
      <==> |a| == |b| && forall i :: 0 <= i < |a| ==> PartOf(a[i]) == PartOf(b[i])
  {
    EpochParts(a);
    EpochParts(b);
    hide BigEndian, EpochFields, PartFields, Frame, EpochTranscript, PartOf;
    if Frame(EpochTranscript(a)) == Frame(EpochTranscript(b)) { FrameInjective(EpochTranscript(a), EpochTranscript(b)); }
    if |a| == |b| { SameEpochFields(a, b); }
  }

  lemma EpochParts(sources: Sources)
    ensures EpochTranscript(sources) == [EPOCH_DOMAIN, BigEndian(|sources|, 8)] + EpochFields(sources)
    ensures EpochTranscript(sources)[2..] == EpochFields(sources) && |EpochTranscript(sources)| == 2 + 6 * |sources|
  {
  }
}
