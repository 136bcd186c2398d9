/** The Mach-O format from the writing side: numbers, signatures, thin images and
    fat archives laid out field by field, and the proof that the reader gets back
    what was written. */
module MachOImages {
  import opened Wrappers
  import opened ByteOrder
  import opened MachO

  // ---- Numbers ----

  function Low(n: nat): byte { (n % 256) as byte }

  function Put32(n: nat, endian: Endian): (b: Bytes)
    ensures |b| == 4
  {
    if endian == Big then [Low(n / 0x100_0000), Low(n / 0x1_0000), Low(n / 0x100), Low(n)]
    else [Low(n), Low(n / 0x100), Low(n / 0x1_0000), Low(n / 0x100_0000)]
  }

  function Put64(n: nat): (b: Bytes)
    ensures |b| == 8
  {
    Put32(n / 0x1_0000_0000, Big) + Put32(n % 0x1_0000_0000, Big)
  }

  predicate Fits(n: nat) { n < 0x1_0000_0000 }

  lemma FourBig(b: Bytes)
    requires |b| == 4
    ensures FromBig(b) == b[0] as nat * 0x100_0000 + b[1] as nat * 0x1_0000 + b[2] as nat * 0x100 + b[3] as nat
  {
    assert b[..3][..2] == b[..2] && b[..2][..1] == b[..1] && b[..1][..0] == [];
    assert FromBig(b[..1]) == b[0] as nat;
    assert FromBig(b[..2]) == FromBig(b[..1]) * 256 + b[1] as nat;
    assert FromBig(b[..3]) == FromBig(b[..2]) * 256 + b[2] as nat;
  }

  lemma FourLittle(b: Bytes)
    requires |b| == 4
    ensures FromLittle(b) == b[3] as nat * 0x100_0000 + b[2] as nat * 0x1_0000 + b[1] as nat * 0x100 + b[0] as nat
  {
    assert b[1..][1..] == b[2..] && b[2..][1..] == b[3..] && b[3..][1..] == [];
    assert FromLittle(b[3..]) == b[3] as nat;
    assert FromLittle(b[2..]) == FromLittle(b[3..]) * 256 + b[2] as nat;
    assert FromLittle(b[1..]) == FromLittle(b[2..]) * 256 + b[1] as nat;
  }

  lemma FourBytes(n: nat)
    requires Fits(n)
    ensures (n / 0x100_0000) % 256 * 0x100_0000 + (n / 0x1_0000) % 256 * 0x1_0000 + (n / 0x100) % 256 * 0x100 +
            n % 256 == n
  {
    var a, b, c := n / 0x100, n / 0x1_0000, n / 0x100_0000;
    assert n == a * 256 + n % 256;
    assert a == b * 256 + a % 256;
    assert b == c * 256 + b % 256;
  }

  /** A 32-bit field reads back, in both byte orders. */
  lemma Reads32(b: Bytes, off: nat, n: nat, endian: Endian)
    requires off + 4 <= |b| && b[off..off + 4] == Put32(n, endian) && Fits(n)
    ensures U32(b, off, endian) == n
  {
    hide FromBig, FromLittle;
    FourBytes(n);
    if endian == Big { FourBig(Put32(n, Big)); } else { FourLittle(Put32(n, Little)); }
  }

  lemma {:induction false} BigConcat(a: Bytes, b: Bytes)
    requires |b| == 4
    ensures FromBig(a + b) == FromBig(a) * 0x1_0000_0000 + FromBig(b)
  {
    hide FromBig;
    BigStep(a + b);
    BigStep((a + b)[..|a| + 3]);
    BigStep((a + b)[..|a| + 2]);
    BigStep((a + b)[..|a| + 1]);
    assert (a + b)[..|a|] == a;
    FourBig(b);
  }

  lemma BigStep(b: Bytes)
    requires b != []
    ensures FromBig(b) == FromBig(b[..|b| - 1]) * 256 + b[|b| - 1] as nat
    ensures forall k | 0 <= k < |b| :: b[..|b| - 1][..k] == b[..k]
  {}

  /** A 64-bit field of a wide archive reads back. */
  lemma Reads64(n: nat)
    requires n < 0x1_0000_0000_0000_0000
    ensures FromBig(Put64(n)) == n
  {
    hide FromBig, Put32;
    BigConcat(Put32(n / 0x1_0000_0000, Big), Put32(n % 0x1_0000_0000, Big));
    BigReads(n / 0x1_0000_0000);
    BigReads(n % 0x1_0000_0000);
  }

  lemma BigReads(n: nat)
    requires Fits(n)
    ensures FromBig(Put32(n, Big)) == n
  {
    hide FromBig;
    FourBig(Put32(n, Big));
    FourBytes(n);
  }

  /** A field in the middle of a text. */
  lemma Middle(a: Bytes, b: Bytes, c: Bytes)
    ensures (a + b + c)[|a|..|a| + |b|] == b
  {}

  lemma Within(file: Bytes, base: nat, part: Bytes, from: nat, to: nat)
    requires base + |part| <= |file| && file[base..base + |part|] == part && from <= to <= |part|
    ensures file[base + from..base + to] == part[from..to]
  {
    var p, q := file[base + from..base + to], part[from..to];
    assert |p| == |q|;
    forall k | 0 <= k < |p| ensures p[k] == q[k] { assert file[base..base + |part|][from + k] == part[from + k]; }
  }

  // ---- Signatures ----

  /** One blob of a signature. */
  datatype Blob =
    | Entitles(xml: Bytes)
    | Directory(version: nat, flags: nat, rest: Bytes)
    | Other(kind: nat, data: Bytes)
  {
    function Kind(): nat {
      match this
      case Entitles(_) => 0xFADE7171
      case Directory(_, _, _) => 0xFADE0C02
      case Other(kind, _) => kind
    }

    function Payload(): Bytes {
      match this
      case Entitles(xml) => xml
      case Directory(version, flags, rest) => Put32(version, Big) + Put32(flags, Big) + rest
      case Other(_, data) => data
    }

    function Written(): (b: Bytes)
      ensures |b| == 8 + |Payload()|
    {
      Put32(Kind(), Big) + Put32(8 + |Payload()|, Big) + Payload()
    }

    predicate Valid() {
      Fits(8 + |Payload()|) && Fits(Kind()) && (Directory? ==> Fits(flags)) &&
      (Other? ==> kind != 0xFADE7171 && kind != 0xFADE0C02)
    }
  }

  function Bodies(blobs: seq<Blob>): Bytes {
    if blobs == [] then [] else Bodies(blobs[..|blobs| - 1]) + blobs[|blobs| - 1].Written()
  }

  /** Where the blob after these begins, in a signature of n blobs. */
  function BlobOffset(n: nat, before: seq<Blob>): nat { 12 + 8 * n + |Bodies(before)| }

  function Index(n: nat, blobs: seq<Blob>): (b: Bytes)
    ensures |b| == 8 * |blobs|
  {
    if blobs == [] then []
    else
      var before := blobs[..|blobs| - 1];
      Index(n, before) + (Put32(0, Big) + Put32(BlobOffset(n, before), Big))
  }

  /** Header, index of offsets, and the blobs one after the other. */
  function SignatureBytes(blobs: seq<Blob>): (b: Bytes)
    ensures |b| == BlobOffset(|blobs|, blobs)
  {
    SignatureHeader(blobs) + Index(|blobs|, blobs) + Bodies(blobs)
  }

  function SignatureHeader(blobs: seq<Blob>): (b: Bytes)
    ensures |b| == 12
  {
    Put32(0xFADE0CC0, Big) + Put32(BlobOffset(|blobs|, blobs), Big) + Put32(|blobs|, Big)
  }

  predicate ValidBlobs(blobs: seq<Blob>) {
    Fits(|SignatureBytes(blobs)|) && forall b | b in blobs :: b.Valid()
  }

  /** What the blobs say: the last entitlements that load, the last flags. */
  function Declared(blobs: seq<Blob>, plist: Plist): Signature {
    if blobs == [] then Signature(None, None)
    else
      var before := Declared(blobs[..|blobs| - 1], plist);
      match blobs[|blobs| - 1]
      case Entitles(xml) => if plist(xml).Some? then before.(entitlements := plist(xml)) else before
      case Directory(_, flags, _) => before.(flags := Some(flags))
      case Other(_, _) => before
  }

  lemma {:induction false} BodyAt(blobs: seq<Blob>, k: nat)
    requires k < |blobs|
    ensures var at := |Bodies(blobs[..k])|; var w := blobs[k].Written();
            at + |w| <= |Bodies(blobs)| && Bodies(blobs)[at..at + |w|] == w
  {
    hide Blob.Written, Blob.Payload, Put32;
    var last := |blobs| - 1;
    var before := blobs[..last];
    if k < last {
      BodyAt(before, k);
      assert before[..k] == blobs[..k];
      var at, w := |Bodies(blobs[..k])|, blobs[k].Written();
      assert Bodies(blobs)[at..at + |w|] == Bodies(before)[at..at + |w|];
    }
  }

  lemma {:induction false} IndexAt(n: nat, blobs: seq<Blob>, k: nat)
    requires k < |blobs|
    ensures Index(n, blobs)[8 * k + 4..8 * k + 8] == Put32(BlobOffset(n, blobs[..k]), Big)
  {
    hide Put32, Bodies;
    var last := |blobs| - 1;
    var before := blobs[..last];
    if k < last {
      IndexAt(n, before, k);
      assert before[..k] == blobs[..k];
      assert Index(n, blobs)[8 * k + 4..8 * k + 8] == Index(n, before)[8 * k + 4..8 * k + 8];
    }
  }

  lemma {:induction false} BodiesGrow(blobs: seq<Blob>, k: nat)
    requires k <= |blobs|
    ensures |Bodies(blobs[..k])| <= |Bodies(blobs)|
  {
    if k < |blobs| {
      BodyAt(blobs, k);
    } else {
      assert blobs[..k] == blobs;
    }
  }

  /** The k-th index entry and the k-th blob, inside the signature. */
  lemma BlobPlace(blobs: seq<Blob>, k: nat)
    requires k < |blobs| && ValidBlobs(blobs)
    ensures var sig := SignatureBytes(blobs);
            var at := BlobOffset(|blobs|, blobs[..k]);
            var w := blobs[k].Written();
            12 + k * 8 + 8 <= |sig| && U32(sig, 12 + k * 8 + 4, Big) == at && at + |w| <= |sig| &&
            sig[at..at + |w|] == w
  {
    hide Put32, Bodies, Index, Blob.Written, U32, SignatureHeader;
    var n := |blobs|;
    var sig, index, bodies := SignatureBytes(blobs), Index(n, blobs), Bodies(blobs);
    var at, w := BlobOffset(n, blobs[..k]), blobs[k].Written();
    IndexAt(n, blobs, k);
    BodyAt(blobs, k);
    Middle(SignatureHeader(blobs), index, bodies);
    Within(sig, 12, index, 8 * k + 4, 8 * k + 8);
    Middle(SignatureHeader(blobs) + index, bodies, []);
    assert sig == SignatureHeader(blobs) + index + bodies + [];
    Within(sig, 12 + 8 * n, bodies, |Bodies(blobs[..k])|, |Bodies(blobs[..k])| + |w|);
    Reads32(sig, 12 + k * 8 + 4, at, Big);
  }

  /** What the reader sees of one written blob. */
  lemma BlobReads(sig: Bytes, at: nat, blob: Blob, plist: Plist)
    requires blob.Valid()
    requires var w := blob.Written(); at + |w| <= |sig| && sig[at..at + |w|] == w
    ensures EntitlementsAt(sig, plist, at) == if blob.Entitles? then plist(blob.xml) else None
    ensures FlagsAt(sig, at) == if blob.Directory? then Some(blob.flags) else None
  {
    hide Put32, U32, Blob.Payload;
    var w, payload := blob.Written(), blob.Payload();
    Within(sig, at, w, 0, 4);
    assert w[0..4] == Put32(blob.Kind(), Big);
    Reads32(sig, at, blob.Kind(), Big);
    Within(sig, at, w, 4, 8);
    assert w[4..8] == Put32(8 + |payload|, Big);
    Reads32(sig, at + 4, 8 + |payload|, Big);
    Within(sig, at, w, 8, |w|);
    assert w[8..|w|] == payload;
    assert Slice(sig, at + 8, at + (8 + |payload|)) == payload;
    PayloadFlags(blob);
    if blob.Directory? {
      Within(sig, at, w, 12, 16);
      assert w[12..16] == payload[4..8];
      Reads32(sig, at + 12, blob.flags, Big);
    }
  }

  lemma PayloadFlags(blob: Blob)
    ensures blob.Entitles? ==> blob.Payload() == blob.xml
    ensures blob.Directory? ==> |blob.Payload()| >= 8 && blob.Payload()[4..8] == Put32(blob.flags, Big)
  {
    hide Put32;
  }

  function Offsets(blobs: seq<Blob>, k: nat): seq<nat>
    requires k <= |blobs|
  {
    seq(k, i requires 0 <= i < k => BlobOffset(|blobs|, blobs[..i]))
  }

  /** The reader finds every blob's offset, in order. */
  lemma {:induction false} OffsetsRead(blobs: seq<Blob>, k: nat)
    requires k <= |blobs| && ValidBlobs(blobs)
    ensures Blobs(SignatureBytes(blobs), k, |blobs|) == Offsets(blobs, |blobs|)[k..]
    decreases |blobs| - k
  {
    hide Blobs, U32, SignatureBytes, BlobOffset, Blob.Written;
    var sig := SignatureBytes(blobs);
    BlobsStep(sig, k, |blobs|);
    if k < |blobs| {
      BlobPlace(blobs, k);
      OffsetsRead(blobs, k + 1);
      var all := Offsets(blobs, |blobs|);
      assert all[k..] == [all[k]] + all[k + 1..];
    }
  }

  lemma {:induction false} DeclaredByParts(blobs: seq<Blob>, plist: Plist, k: nat)
    requires k <= |blobs| && ValidBlobs(blobs)
    ensures var sig := SignatureBytes(blobs);
            var seen := Offsets(blobs, k);
            Declared(blobs[..k], plist) ==
            Signature(LastSome(EntitlementsOf(sig, plist, seen)), LastSome(FlagsOf(sig, seen)))
  {
    hide U32, SignatureBytes, BlobOffset, EntitlementsAt, FlagsAt, Blob.Written, Blob.Valid;
    if k > 0 {
      var sig := SignatureBytes(blobs);
      DeclaredByParts(blobs, plist, k - 1);
      BlobPlace(blobs, k - 1);
      var at := BlobOffset(|blobs|, blobs[..k - 1]);
      assert blobs[k - 1] in blobs;
      BlobReads(sig, at, blobs[k - 1], plist);
      assert Offsets(blobs, k) == Offsets(blobs, k - 1) + [at];
      NextBlob(sig, plist, Offsets(blobs, k - 1), at);
      assert blobs[..k][..k - 1] == blobs[..k - 1];
    }
  }

  /** Reading a written signature gives what its blobs say. */
  lemma SignatureReads(blobs: seq<Blob>, plist: Plist)
    requires ValidBlobs(blobs)
    ensures CodeSignature(SignatureBytes(blobs), plist) == Declared(blobs, plist)
  {
    hide U32, Blobs, EntitlementsOf, FlagsOf, Declared, Put32, Index, Bodies, LastSome;
    var sig := SignatureBytes(blobs);
    assert sig[0..4] == Put32(0xFADE0CC0, Big);
    Reads32(sig, 0, 0xFADE0CC0, Big);
    assert sig[8..12] == Put32(|blobs|, Big);
    Reads32(sig, 8, |blobs|, Big);
    OffsetsRead(blobs, 0);
    DeclaredByParts(blobs, plist, |blobs|);
    assert blobs[..|blobs|] == blobs && Offsets(blobs, |blobs|)[0..] == Offsets(blobs, |blobs|);
  }

  // ---- Thin images ----

  /** One load command. */
  datatype Command = Command(kind: nat, data: Bytes) {
    function Written(endian: Endian): (b: Bytes)
      ensures |b| == 8 + |data|
    {
      Put32(kind, endian) + Put32(8 + |data|, endian) + data
    }
  }

  /** A thin image: header fields, load commands around the signature command, and
      the signature after them. */
  datatype Image = Image(endian: Endian, bits: nat, cpu: nat, subtype: nat, fileType: nat, flags: nat,
                         before: seq<Command>, after: seq<Command>, blobs: Option<seq<Blob>>) {
    function Start(): nat { if bits == 64 then 32 else 28 }

    function Commands(): seq<Command> {
      if blobs.None? then before + after else before + [Signed()] + after
    }

    function Signed(): Command
      requires blobs.Some?
    {
      Command(0x1D, Put32(Start() + CommandsSize(), endian) + Put32(|SignatureBytes(blobs.value)|, endian))
    }

    function CommandsSize(): nat {
      Size(before) + Size(after) + if blobs.Some? then 16 else 0
    }

    function Head(): (b: Bytes)
      ensures |b| == Start()
    {
      Put32(if bits == 64 then 0xFEEDFACF else 0xFEEDFACE, endian) + Put32(cpu, endian) + Put32(subtype, endian) +
      Put32(fileType, endian) + Put32(|Commands()|, endian) + Put32(CommandsSize(), endian) + Put32(flags, endian) +
      if bits == 64 then Put32(0, endian) else []
    }

    function Written(): Bytes {
      Head() + Lined(Commands(), endian) + if blobs.Some? then SignatureBytes(blobs.value) else []
    }

    predicate Valid() {
      (bits == 32 || bits == 64) && Fits(cpu) && Fits(subtype) && Fits(|Written()|) && Fits(|Commands()|) &&
      (forall c | c in before + after :: Fits(c.kind) && Fits(8 + |c.data|) && c.kind != 0x1D) &&
      (blobs.Some? ==> ValidBlobs(blobs.value))
    }

    /** What the reader should say: nothing of a signature past its limits of 8 MiB
        of commands and 16 MiB of signature. */
    function Meaning(plist: Plist): Info {
      Info(ArchName(cpu, subtype),
           if blobs.Some? && CommandsSize() <= 8_388_608 && |SignatureBytes(blobs.value)| <= 16_777_216
           then Declared(blobs.value, plist) else Signature(None, None))
    }
  }

  function Size(cs: seq<Command>): nat {
    if cs == [] then 0 else Size(cs[..|cs| - 1]) + 8 + |cs[|cs| - 1].data|
  }

  function Lined(cs: seq<Command>, endian: Endian): (b: Bytes)
    ensures |b| == Size(cs)
  {
    if cs == [] then [] else Lined(cs[..|cs| - 1], endian) + cs[|cs| - 1].Written(endian)
  }

  /** The names of the architectures, from their codes. */
  lemma ArchCodes(subtype: nat)
    ensures ArchName(0x0100_000C, subtype) == if subtype % 0x100 == 2 then Arm64e else Arm64
    ensures ArchName(0x0100_0007, subtype) == X86_64 && ArchName(0xC, subtype) == Arm && ArchName(0x7, subtype) == X86
    ensures forall n: nat | n != 0x0100_000C && n != 0x0100_0007 && n != 0xC && n != 0x7 ::
              ArchName(n, subtype) == Cpu(n)
  {}

  lemma {:induction false} SizeConcat(a: seq<Command>, b: seq<Command>)
    ensures Size(a + b) == Size(a) + Size(b)
  {
    if b == [] {
      assert a + b == a;
    } else {
      var init := b[..|b| - 1];
      SizeConcat(a, init);
      assert (a + b)[..|a + b| - 1] == a + init;
    }
  }

  lemma CommandsSizes(img: Image)
    ensures Size(img.Commands()) == img.CommandsSize()
  {
    hide Size, Put32, SignatureBytes;
    SizeConcat(img.before, img.after);
    if img.blobs.Some? {
      SizeOne(img.Signed());
      SizeConcat(img.before, [img.Signed()]);
      SizeConcat(img.before + [img.Signed()], img.after);
    }
  }

  lemma SizeOne(c: Command)
    ensures Size([c]) == 8 + |c.data|
  {
    assert [c][..0] == [];
  }

  lemma {:induction false} LinedAt(cs: seq<Command>, endian: Endian, k: nat)
    requires k < |cs|
    ensures var at := Size(cs[..k]); var w := cs[k].Written(endian);
            at + |w| <= Size(cs) && Size(cs[..k + 1]) == at + |w| && Lined(cs, endian)[at..at + |w|] == w
  {
    hide Command.Written, Lined, Size;
    var last := |cs| - 1;
    var before, w := cs[..last], cs[k].Written(endian);
    LinedNext(cs, endian);
    if k < last {
      LinedAt(before, endian, k);
      assert before[..k] == cs[..k] && before[..k + 1] == cs[..k + 1];
      var at := Size(cs[..k]);
      assert Lined(cs, endian)[at..at + |w|] == Lined(before, endian)[at..at + |w|];
    } else {
      assert cs[..k] == before && cs[..k + 1] == cs;
      Middle(Lined(before, endian), w, []);
      assert Lined(cs, endian) == Lined(before, endian) + w + [];
    }
  }

  lemma LinedNext(cs: seq<Command>, endian: Endian)
    requires cs != []
    ensures var last := |cs| - 1;
            Lined(cs, endian) == Lined(cs[..last], endian) + cs[last].Written(endian) &&
            Size(cs) == Size(cs[..last]) + |cs[last].Written(endian)|
  {
    hide Command.Written;
  }

  /** The header fields of the k-th command. */
  lemma CommandReads(cs: seq<Command>, endian: Endian, k: nat)
    requires k < |cs| && Fits(cs[k].kind) && Fits(8 + |cs[k].data|)
    ensures var lcs := Lined(cs, endian); var at := Size(cs[..k]);
            at + 8 + |cs[k].data| == Size(cs[..k + 1]) <= |lcs| && U32(lcs, at, endian) == cs[k].kind &&
            U32(lcs, at + 4, endian) == 8 + |cs[k].data| && lcs[at + 8..at + 8 + |cs[k].data|] == cs[k].data
  {
    hide Put32, U32, Lined, Size;
    LinedAt(cs, endian, k);
    var lcs, at, w := Lined(cs, endian), Size(cs[..k]), cs[k].Written(endian);
    Within(lcs, at, w, 0, 4);
    Within(lcs, at, w, 4, 8);
    Within(lcs, at, w, 8, |w|);
    assert w[0..4] == Put32(cs[k].kind, endian) && w[4..8] == Put32(8 + |cs[k].data|, endian) &&
           w[8..|w|] == cs[k].data;
    Reads32(lcs, at, cs[k].kind, endian);
    Reads32(lcs, at + 4, 8 + |cs[k].data|, endian);
  }

  /** Commands of other kinds leave no trace. */
  lemma {:induction false} OthersRead(cs: seq<Command>, endian: Endian, size: nat, k: nat)
    requires k <= |cs| && forall j | k <= j < |cs| :: Fits(cs[j].kind) && Fits(8 + |cs[j].data|) && cs[j].kind != 0x1D
    ensures SignatureCommands(Lined(cs, endian), endian, size, Size(cs[..k]), |cs| - k) == []
    decreases |cs| - k
  {
    hide Put32, U32, Lined, Size, SignatureCommands, Accepted;
    var lcs := Lined(cs, endian);
    if k < |cs| {
      CommandReads(cs, endian, k);
      CommandsStep(lcs, endian, size, Size(cs[..k]), |cs| - k);
      OthersRead(cs, endian, size, k + 1);
    } else {
      NoCommands(lcs, endian, size, Size(cs[..k]));
    }
  }

  lemma NoCommands(lcs: Bytes, endian: Endian, size: nat, off: nat)
    ensures SignatureCommands(lcs, endian, size, off, 0) == []
  {}

  /** The signature command among others is the one that is found, if it is accepted. */
  lemma {:induction false} SignedReads(cs: seq<Command>, endian: Endian, size: nat, s: nat, k: nat, at: nat,
                                       length: nat)
    requires k <= s < |cs| && cs[s] == Command(0x1D, Put32(at, endian) + Put32(length, endian)) && Fits(at) &&
             Fits(length)
    requires forall j | k <= j < |cs| :: Fits(cs[j].kind) && Fits(8 + |cs[j].data|) && (j != s ==> cs[j].kind != 0x1D)
    ensures SignatureCommands(Lined(cs, endian), endian, size, Size(cs[..k]), |cs| - k) ==
            if Accepted(at, length, size) then [(at, length)] else []
    decreases s - k
  {
    hide Put32, U32, Lined, Size, SignatureCommands, Accepted;
    var lcs := Lined(cs, endian);
    CommandReads(cs, endian, k);
    CommandsStep(lcs, endian, size, Size(cs[..k]), |cs| - k);
    if k < s {
      SignedReads(cs, endian, size, s, k + 1, at, length);
    } else {
      OthersRead(cs, endian, size, s + 1);
      var off := Size(cs[..s]);
      Within(lcs, off + 8, cs[s].data, 0, 4);
      Within(lcs, off + 8, cs[s].data, 4, 8);
      Reads32(lcs, off + 8, at, endian);
      Reads32(lcs, off + 12, length, endian);
    }
  }

  /** The fields of an image's header. */
  lemma HeadReads(img: Image)
    requires img.Valid()
    ensures var h := img.Head();
            U32(h, 4, img.endian) == img.cpu && U32(h, 8, img.endian) == img.subtype &&
            U32(h, 16, img.endian) == |img.Commands()| && U32(h, 20, img.endian) == img.CommandsSize() &&
            ThinMagic(Slice(h, 0, 4)) == Some((img.endian, img.bits))
  {
    hide Put32, U32, Image.Written, Image.Commands, Image.CommandsSize, ThinMagic;
    var h, e := img.Head(), img.endian;
    HeadFits(img);
    assert h[4..8] == Put32(img.cpu, e);
    Reads32(h, 4, img.cpu, e);
    assert h[8..12] == Put32(img.subtype, e);
    Reads32(h, 8, img.subtype, e);
    assert h[16..20] == Put32(|img.Commands()|, e);
    Reads32(h, 16, |img.Commands()|, e);
    assert h[20..24] == Put32(img.CommandsSize(), e);
    Reads32(h, 20, img.CommandsSize(), e);
    assert h[0..4] == Put32(if img.bits == 64 then 0xFEEDFACF else 0xFEEDFACE, e);
    Magics(e);
  }

  lemma HeadFits(img: Image)
    requires img.Valid()
    ensures Fits(img.CommandsSize()) && Fits(|img.Commands()|)
    ensures |img.Written()| == img.Start() + img.CommandsSize() +
                               if img.blobs.Some? then |SignatureBytes(img.blobs.value)| else 0
  {
    hide Size, SignatureBytes, Put32;
    CommandsSizes(img);
  }

  lemma Magics(e: Endian)
    ensures ThinMagic(Put32(0xFEEDFACF, e)) == Some((e, 64)) && ThinMagic(Put32(0xFEEDFACE, e)) == Some((e, 32))
  {
    var wide, narrow := Put32(0xFEEDFACF, e), Put32(0xFEEDFACE, e);
    if e == Big {
      assert wide == MH_64_BIG && narrow == MH_32_BIG;
      assert wide[0] != MH_64_LITTLE[0] && narrow[0] != MH_64_LITTLE[0] && narrow[0] != MH_32_LITTLE[0];
      assert narrow[3] != MH_64_BIG[3];
    } else {
      assert wide == MH_64_LITTLE && narrow == MH_32_LITTLE;
      assert narrow[0] != MH_64_LITTLE[0] && narrow[0] != MH_64_BIG[0];
    }
  }

  /** Which commands the reader finds in an image. */
  lemma ImageCommands(img: Image)
    requires img.Valid()
    ensures var found := SignatureCommands(Lined(img.Commands(), img.endian), img.endian, |img.Written()|, 0,
                                           |img.Commands()|);
            if img.blobs.None? then found == []
            else
              var at := img.Start() + img.CommandsSize(); var length := |SignatureBytes(img.blobs.value)|;
              found == if length <= 16_777_216 then [(at, length)] else []
  {
    hide Lined, Size, SignatureCommands, SignatureBytes, Image.CommandsSize, Image.Head, Put32;
    HeadFits(img);
    var cs := img.Commands();
    assert cs[..0] == [] && Size([]) == 0 by { SizeNone(); }
    if img.blobs.None? {
      OthersRead(cs, img.endian, |img.Written()|, 0);
    } else {
      var at, length := img.Start() + img.CommandsSize(), |SignatureBytes(img.blobs.value)|;
      assert length >= 12;
      var s := |img.before|;
      forall j | 0 <= j < |cs| ensures Fits(cs[j].kind) && Fits(8 + |cs[j].data|) && (j != s ==> cs[j].kind != 0x1D) {
        if j != s {
          assert cs[j] == (img.before + img.after)[if j < s then j else j - 1];
        }
      }
      SignedReads(cs, img.endian, |img.Written()|, s, 0, at, length);
    }
  }

  lemma SizeNone()
    ensures Size([]) == 0
  {}

  /** The three parts of a written image. */
  lemma ImageParts(img: Image)
    requires img.Valid()
    ensures var file := img.Written(); var start := img.Start(); var mid := start + img.CommandsSize();
            mid <= |file| && file[..start] == img.Head() &&
            file[start..mid] == Lined(img.Commands(), img.endian) &&
            (img.blobs.Some? ==> file[mid..] == SignatureBytes(img.blobs.value))
  {
    hide Lined, Size, SignatureBytes, Image.Commands, Image.CommandsSize, Image.Head;
    CommandsSizes(img);
  }

  /** Reading a written image gives its architecture and what its signature says. */
  lemma ImageReads(img: Image, plist: Plist)
    requires img.Valid()
    ensures var file := img.Written();
            ThinMagic(Slice(file, 0, 4)) == Some((img.endian, img.bits)) &&
            Thin(file, 0, img.endian, img.bits, |file|, plist) == Some(img.Meaning(plist))
  {
    hide U32, Lined, SignatureBytes, Image.Commands, Image.CommandsSize, Image.Head, ArchName, SignatureCommands,
         CodeSignature, Declared, Image.Valid, ThinMagic, Image.Written;
    ImageParts(img);
    HeadReads(img);
    HeadFits(img);
    ImageCommands(img);
    var file, start := img.Written(), img.Start();
    assert Slice(file, 0, 4) == Slice(img.Head(), 0, 4) by {
      assert Slice(file, 0, 4) == file[..start][..4] == Slice(img.Head(), 0, 4);
    }
    var mid := start + img.CommandsSize();
    assert Slice(file, 0, start) == img.Head();
    assert Slice(file, start, mid) == Lined(img.Commands(), img.endian);
    if img.blobs.Some? {
      BlobsValid(img);
      SignatureReads(img.blobs.value, plist);
      var length := |SignatureBytes(img.blobs.value)|;
      assert Slice(file, mid, mid + length) == SignatureBytes(img.blobs.value);
      SomeCommands(img);
    }
  }

  lemma SomeCommands(img: Image)
    ensures img.blobs.Some? ==> img.CommandsSize() > 0
  {
    hide Size;
  }

  lemma BlobsValid(img: Image)
    requires img.Valid() && img.blobs.Some?
    ensures ValidBlobs(img.blobs.value)
  {}

  // ---- Fat archives ----

  /** The size of that many entries. */
  function Table(wide: bool, n: nat): nat { if wide then 32 * n else 20 * n }

  /** Where the slice after these begins, in an archive of n slices. */
  function SliceOffset(wide: bool, n: nat, before: seq<Image>): nat { 8 + Table(wide, n) + |Joined(before)| }

  function Joined(images: seq<Image>): Bytes {
    if images == [] then [] else Joined(images[..|images| - 1]) + images[|images| - 1].Written()
  }

  /** Architecture codes, offset, size and alignment; wider and padded when wide. */
  function EntryBytes(wide: bool, img: Image, offset: nat): (b: Bytes)
    ensures |b| == if wide then 32 else 20
  {
    var size := |img.Written()|;
    Put32(img.cpu, Big) + Put32(img.subtype, Big) +
    if wide then Put64(offset) + Put64(size) + Put32(0, Big) + Put32(0, Big)
    else Put32(offset, Big) + Put32(size, Big) + Put32(0, Big)
  }

  function Entries(wide: bool, n: nat, images: seq<Image>): (b: Bytes)
    ensures |b| == Table(wide, |images|)
  {
    if images == [] then []
    else
      var k := |images| - 1;
      Entries(wide, n, images[..k]) + EntryBytes(wide, images[k], SliceOffset(wide, n, images[..k]))
  }

  function FatHead(wide: bool, n: nat): (b: Bytes)
    ensures |b| == 8
  {
    Put32(if wide then 0xCAFEBABF else 0xCAFEBABE, Big) + Put32(n, Big)
  }

  function Archived(wide: bool, images: seq<Image>): Bytes {
    FatHead(wide, |images|) + Entries(wide, |images|, images) + Joined(images)
  }

  predicate ValidImages(wide: bool, images: seq<Image>) {
    Fits(|Archived(wide, images)|) && Fits(|images|) && forall img | img in images :: img.Valid()
  }

  lemma {:induction false} JoinedAt(images: seq<Image>, k: nat)
    requires k < |images|
    ensures var at := |Joined(images[..k])|; var w := images[k].Written();
            at + |w| <= |Joined(images)| && Joined(images)[at..at + |w|] == w
  {
    hide Image.Written;
    var last := |images| - 1;
    var before, w := images[..last], images[k].Written();
    if k < last {
      JoinedAt(before, k);
      assert before[..k] == images[..k];
      var at := |Joined(images[..k])|;
      assert Joined(images)[at..at + |w|] == Joined(before)[at..at + |w|];
    }
  }

  lemma {:induction false} EntryPlace(wide: bool, n: nat, images: seq<Image>, k: nat)
    requires k < |images|
    ensures Entries(wide, n, images)[Table(wide, k)..Table(wide, k + 1)] ==
            EntryBytes(wide, images[k], SliceOffset(wide, n, images[..k]))
  {
    hide EntryBytes, SliceOffset, Entries;
    EntriesNext(wide, n, images);
    var last := |images| - 1;
    var before := images[..last];
    if k < last {
      EntryPlace(wide, n, before, k);
      assert before[..k] == images[..k];
      var from, to := Table(wide, k), Table(wide, k + 1);
      assert Entries(wide, n, images)[from..to] == Entries(wide, n, before)[from..to];
    }
  }

  lemma EntriesNext(wide: bool, n: nat, images: seq<Image>)
    requires images != []
    ensures var k := |images| - 1;
            Entries(wide, n, images) ==
            Entries(wide, n, images[..k]) + EntryBytes(wide, images[k], SliceOffset(wide, n, images[..k]))
  {
    hide EntryBytes, SliceOffset;
  }

  /** An entry reads back, narrow or wide. */
  lemma EntryReads(wide: bool, img: Image, offset: nat)
    requires Fits(offset) && Fits(|img.Written()|)
    ensures var e := EntryBytes(wide, img, offset);
            if wide then FromBig(e[8..16]) == offset && FromBig(e[16..24]) == |img.Written()|
            else FromBig(e[8..12]) == offset && FromBig(e[12..16]) == |img.Written()|
  {
    hide FromBig, Put32, Put64, Image.Written;
    var e, size := EntryBytes(wide, img, offset), |img.Written()|;
    if wide {
      assert e[8..16] == Put64(offset) && e[16..24] == Put64(size);
      Reads64(offset);
      Reads64(size);
    } else {
      assert e[8..12] == Put32(offset, Big) && e[12..16] == Put32(size, Big);
      BigReads(offset);
      BigReads(size);
    }
  }

  /** The k-th entry and the k-th slice of an archive. */
  lemma SlicePlace(wide: bool, images: seq<Image>, k: nat)
    requires k < |images| && ValidImages(wide, images)
    ensures var file := Archived(wide, images); var at := SliceOffset(wide, |images|, images[..k]);
            var w := images[k].Written();
            EntryAt(Entries(wide, |images|, images), wide, k) == Some(FatEntry(at, |w|)) &&
            at + |w| <= |file| && file[at..at + |w|] == w
  {
    hide EntryBytes, Image.Written, Image.Valid, FatHead, Joined, Entries, FromBig;
    var n := |images|;
    var file, entries, joined := Archived(wide, images), Entries(wide, n, images), Joined(images);
    var at, w := SliceOffset(wide, n, images[..k]), images[k].Written();
    JoinedAt(images, k);
    Middle(FatHead(wide, n) + entries, joined, []);
    assert file == FatHead(wide, n) + entries + joined + [];
    Within(file, 8 + Table(wide, n), joined, |Joined(images[..k])|, |Joined(images[..k])| + |w|);
    EntryPlace(wide, n, images, k);
    EntryReads(wide, images[k], at);
  }

  function Meanings(images: seq<Image>, plist: Plist): seq<Info> {
    seq(|images|, i requires 0 <= i < |images| => images[i].Meaning(plist))
  }

  /** What the reader takes from one written slice. */
  lemma SliceReads(file: Bytes, at: nat, img: Image, plist: Plist)
    requires img.Valid() && at + |img.Written()| <= |file| && file[at..at + |img.Written()|] == img.Written()
    ensures Taken(file, FatEntry(at, |img.Written()|), plist) == [img.Meaning(plist)]
  {
    hide Image.Valid, Image.Written, Image.Meaning, Thin, ThinMagic, Slice, Image.Head;
    var w := img.Written();
    ImageReads(img, plist);
    LongEnough(img);
    SliceOfSlice(file, at, |w|, 0, 4);
    ThinConfined(file, at, img.endian, img.bits, |w|, plist);
  }

  lemma LongEnough(img: Image)
    requires img.Valid()
    ensures |img.Written()| >= 28
  {
    hide Lined, SignatureBytes;
  }

  lemma {:induction false} SlicesRead(wide: bool, images: seq<Image>, plist: Plist, k: nat)
    requires k <= |images| && ValidImages(wide, images)
    ensures SliceInfos(Archived(wide, images), Entries(wide, |images|, images), wide, k, |images|, plist) ==
            Meanings(images, plist)[k..]
    decreases |images| - k
  {
    hide EntryAt, SliceInfos, Taken, Archived, Entries, SliceOffset, Image.Written, Image.Valid, Image.Meaning,
         InBounds, ThinMagic, Slice, Thin;
    var file, entries := Archived(wide, images), Entries(wide, |images|, images);
    InfosStep(file, entries, wide, k, |images|, plist);
    if k < |images| {
      SlicePlace(wide, images, k);
      assert images[k] in images;
      SliceReads(file, SliceOffset(wide, |images|, images[..k]), images[k], plist);
      SlicesRead(wide, images, plist, k + 1);
      var all := Meanings(images, plist);
      assert all[k..] == [all[k]] + all[k + 1..];
    }
  }

  /** An archive of at most 64 slices gives what its slices mean, in order; of
      none, or of more, nothing. */
  lemma ArchiveReads(wide: bool, images: seq<Image>, plist: Plist, info: Option<Info>)
    requires ValidImages(wide, images) && IsInfo(Archived(wide, images), plist, info)
    ensures Preferred(if |images| <= 64 then Meanings(images, plist) else [], info)
  {
    hide U32, EntryAt, SliceInfos, Entries, Joined, Image.Valid, Image.Meaning, Preferred, Put32, ThinMagic;
    var file, n := Archived(wide, images), |images|;
    var head, entries := FatHead(wide, n), Entries(wide, n, images);
    var magic := if wide then 0xCAFEBABF else 0xCAFEBABE;
    FatMagics();
    assert file[..8] == head;
    assert Slice(file, 0, 4) == head[0..4] == Put32(magic, Big);
    assert Slice(file, 0, 8) == head;
    assert head[4..8] == Put32(n, Big);
    Reads32(head, 4, n, Big);
    if 0 < n <= 64 {
      assert Slice(file, 8, 8 + Table(wide, n)) == entries;
      SlicesRead(wide, images, plist, 0);
      assert Meanings(images, plist)[0..] == Meanings(images, plist);
    }
  }

  lemma FatMagics()
    ensures Put32(0xCAFEBABE, Big) == FAT_MAGIC && Put32(0xCAFEBABF, Big) == FAT_MAGIC_64 && FAT_MAGIC != FAT_MAGIC_64
  {
    assert FAT_MAGIC[3] != FAT_MAGIC_64[3];
  }

  /** A thin file gives what it means. */
  lemma FileReads(img: Image, plist: Plist, info: Option<Info>)
    requires img.Valid() && IsInfo(img.Written(), plist, info)
    ensures info == Some(img.Meaning(plist))
  {
    hide Thin, Image.Valid, Image.Written, Image.Meaning, ThinMagic, FatMagic;
    ImageReads(img, plist);
    LongEnough(img);
    SliceLength(img.Written(), 4);
    FatIsNotThin(Slice(img.Written(), 0, 4));
  }
}
