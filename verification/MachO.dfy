/** The Mach-O reader: thin images, fat archives of them, and the embedded code
    signature, read through bounded offsets. */
module MachO {
  import opened Wrappers
  import opened ByteOrder

  datatype Endian = Little | Big

  const MH_64_LITTLE: Bytes := [0xCF, 0xFA, 0xED, 0xFE]
  const MH_64_BIG: Bytes := [0xFE, 0xED, 0xFA, 0xCF]
  const MH_32_LITTLE: Bytes := [0xCE, 0xFA, 0xED, 0xFE]
  const MH_32_BIG: Bytes := [0xFE, 0xED, 0xFA, 0xCE]
  const FAT_MAGIC: Bytes := [0xCA, 0xFE, 0xBA, 0xBE]
  const FAT_MAGIC_64: Bytes := [0xCA, 0xFE, 0xBA, 0xBF]

  const LC_CODE_SIGNATURE := 0x1D
  const CSMAGIC_EMBEDDED_SIGNATURE := 0xFADE0CC0
  const CSMAGIC_EMBEDDED_ENTITLEMENTS := 0xFADE7171
  const CSMAGIC_CODEDIRECTORY := 0xFADE0C02
  const MAX_SIG_BYTES := 16 * 1024 * 1024
  const MAX_COMMAND_BYTES := 8 * 1024 * 1024

  function ThinMagic(head: Bytes): Option<(Endian, nat)> {
    if head == MH_64_LITTLE then Some((Little, 64))
    else if head == MH_64_BIG then Some((Big, 64))
    else if head == MH_32_LITTLE then Some((Little, 32))
    else if head == MH_32_BIG then Some((Big, 32))
    else None
  }

  predicate FatMagic(head: Bytes) { head == FAT_MAGIC || head == FAT_MAGIC_64 }

  function FromBig(b: Bytes): nat {
    if b == [] then 0 else FromBig(b[..|b| - 1]) * 256 + b[|b| - 1] as nat
  }

  function FromLittle(b: Bytes): nat {
    if b == [] then 0 else FromLittle(b[1..]) * 256 + b[0] as nat
  }

  /** Python's slice: what there is between two offsets, at most. */
  function Slice(b: Bytes, from: nat, to: nat): Bytes {
    var hi := if to < |b| then to else |b|;
    if from <= hi then b[from..hi] else []
  }

  /** `int.from_bytes(buf[off:off + 4])`, of fewer bytes at the end. */
  function U32(b: Bytes, off: nat, endian: Endian): nat {
    if endian == Big then FromBig(Slice(b, off, off + 4)) else FromLittle(Slice(b, off, off + 4))
  }

  datatype Arch = Arm64e | Arm64 | X86_64 | Arm | X86 | Cpu(n: nat) {
    predicate IsArm64() { Arm64e? || Arm64? }
  }

  function ArchName(cpuType: nat, cpuSubtype: nat): Arch {
    if cpuType == 0x0100000C then if cpuSubtype % 256 == 2 then Arm64e else Arm64
    else if cpuType == 0x01000007 then X86_64
    else if cpuType == 12 then Arm
    else if cpuType == 7 then X86
    else Cpu(cpuType)
  }

  /** A parsed property list, opaque; `plist` is what loading one gives, None
      when it fails or is not a dictionary. */
  type Entitlements = int

  type Plist = Bytes -> Option<Entitlements>

  datatype Signature = Signature(entitlements: Option<Entitlements>, flags: Option<nat>)

  datatype Info = Info(arch: Arch, signature: Signature)

  const UNSIGNED := Signature(None, None)

  function LastSome<T>(q: seq<Option<T>>): Option<T> {
    if q == [] then None
    else if q[|q| - 1].Some? then q[|q| - 1]
    else LastSome(q[..|q| - 1])
  }

  // ---- Code signatures ----

  /** The offsets of the indexed blobs that have a header inside the signature. */
  function Blobs(sig: Bytes, i: nat, count: nat): seq<nat>
    decreases if i <= count then count - i else 0
  {
    if i >= count || 12 + i * 8 + 8 > |sig| then []
    else
      var at := U32(sig, 12 + i * 8 + 4, Big);
      (if at + 8 > |sig| then [] else [at]) + Blobs(sig, i + 1, count)
  }

  function EntitlementsAt(sig: Bytes, plist: Plist, at: nat): Option<Entitlements> {
    if U32(sig, at, Big) == CSMAGIC_EMBEDDED_ENTITLEMENTS
    then plist(Slice(sig, at + 8, at + U32(sig, at + 4, Big)))
    else None
  }

  function FlagsAt(sig: Bytes, at: nat): Option<nat> {
    if U32(sig, at, Big) == CSMAGIC_CODEDIRECTORY && at + 16 <= |sig| then Some(U32(sig, at + 12, Big)) else None
  }

  function EntitlementsOf(sig: Bytes, plist: Plist, blobs: seq<nat>): seq<Option<Entitlements>> {
    seq(|blobs|, k requires 0 <= k < |blobs| => EntitlementsAt(sig, plist, blobs[k]))
  }

  function FlagsOf(sig: Bytes, blobs: seq<nat>): seq<Option<nat>> {
    seq(|blobs|, k requires 0 <= k < |blobs| => FlagsAt(sig, blobs[k]))
  }

  /** The last entitlements blob that loads and the last code directory's flags. */
  function CodeSignature(sig: Bytes, plist: Plist): Signature {
    if |sig| < 12 || U32(sig, 0, Big) != CSMAGIC_EMBEDDED_SIGNATURE then UNSIGNED
    else
      var blobs := Blobs(sig, 0, U32(sig, 8, Big));
      Signature(LastSome(EntitlementsOf(sig, plist, blobs)), LastSome(FlagsOf(sig, blobs)))
  }

  /** One blob's effect on what has been found. */
  function Noted(sig: Bytes, plist: Plist, at: nat, s: Signature): Signature {
    var (e, g) := (EntitlementsAt(sig, plist, at), FlagsAt(sig, at));
    Signature(if e.Some? then e else s.entitlements, if g.Some? then g else s.flags)
  }

  /** What has been found after the blobs seen so far. */
  ghost predicate Found(sig: Bytes, plist: Plist, count: nat, i: nat, seen: seq<nat>, s: Signature) {
    seen + Blobs(sig, i, count) == Blobs(sig, 0, count) &&
    s == Signature(LastSome(EntitlementsOf(sig, plist, seen)), LastSome(FlagsOf(sig, seen)))
  }

  lemma FoundNext(sig: Bytes, plist: Plist, count: nat, i: nat, seen: seq<nat>, s: Signature)
    requires Found(sig, plist, count, i, seen, s) && i < count && 12 + i * 8 + 8 <= |sig|
    ensures var at := U32(sig, 12 + i * 8 + 4, Big);
            if at + 8 > |sig| then Found(sig, plist, count, i + 1, seen, s)
            else Found(sig, plist, count, i + 1, seen + [at], Noted(sig, plist, at, s))
  {
    hide U32, EntitlementsAt, FlagsAt, EntitlementsOf, FlagsOf, LastSome, Blobs;
    BlobsStep(sig, i, count);
    var at := U32(sig, 12 + i * 8 + 4, Big);
    if at + 8 <= |sig| {
      NextBlob(sig, plist, seen, at);
      assert seen + [at] + Blobs(sig, i + 1, count) == seen + ([at] + Blobs(sig, i + 1, count));
    }
  }

  lemma FoundDone(sig: Bytes, plist: Plist, count: nat, i: nat, seen: seq<nat>, s: Signature)
    requires Found(sig, plist, count, i, seen, s) && (i >= count || 12 + i * 8 + 8 > |sig|)
    ensures s == Signature(LastSome(EntitlementsOf(sig, plist, Blobs(sig, 0, count))),
                           LastSome(FlagsOf(sig, Blobs(sig, 0, count))))
  {
    BlobsStep(sig, i, count);
    hide Blobs, U32, LastSome, EntitlementsOf, FlagsOf;
    assert seen + [] == seen;
  }

  /** `_parse_codesig`. */
  method ParseCodesig(sig: Bytes, plist: Plist) returns (s: Signature)
    ensures s == CodeSignature(sig, plist)
  {
    hide U32, EntitlementsAt, FlagsAt, Found, Blobs, LastSome, EntitlementsOf, FlagsOf;
    if |sig| < 12 || U32(sig, 0, Big) != CSMAGIC_EMBEDDED_SIGNATURE { return UNSIGNED; }
    var count := U32(sig, 8, Big);
    s := UNSIGNED;
    ghost var seen: seq<nat> := [];
    NoBlobs(sig, plist, count);
    var i: nat := 0;
    while i < count
      invariant i <= count && Found(sig, plist, count, i, seen, s)
    {
      var idx := 12 + i * 8;
      if idx + 8 > |sig| { break; }
      FoundNext(sig, plist, count, i, seen, s);
      var at := U32(sig, idx + 4, Big);
      i := i + 1;
      if at + 8 > |sig| { continue; }
      seen := seen + [at];
      var entitlements, flags := EntitlementsAt(sig, plist, at), FlagsAt(sig, at);
      s := Signature(if entitlements.Some? then entitlements else s.entitlements,
                     if flags.Some? then flags else s.flags);
    }
    FoundDone(sig, plist, count, i, seen, s);
  }

  lemma BlobsStep(sig: Bytes, i: nat, count: nat)
    ensures Blobs(sig, i, count) ==
              if i >= count || 12 + i * 8 + 8 > |sig| then []
              else if U32(sig, 12 + i * 8 + 4, Big) + 8 > |sig| then Blobs(sig, i + 1, count)
              else [U32(sig, 12 + i * 8 + 4, Big)] + Blobs(sig, i + 1, count)
  {
    hide U32;
  }

  lemma NoBlobs(sig: Bytes, plist: Plist, count: nat)
    ensures Found(sig, plist, count, 0, [], UNSIGNED)
  {
    assert [] + Blobs(sig, 0, count) == Blobs(sig, 0, count);
    hide Blobs;
  }

  lemma NextBlob(sig: Bytes, plist: Plist, seen: seq<nat>, at: nat)
    ensures LastSome(EntitlementsOf(sig, plist, seen + [at])) ==
              if EntitlementsAt(sig, plist, at).Some? then EntitlementsAt(sig, plist, at)
              else LastSome(EntitlementsOf(sig, plist, seen))
    ensures LastSome(FlagsOf(sig, seen + [at])) ==
              if FlagsAt(sig, at).Some? then FlagsAt(sig, at) else LastSome(FlagsOf(sig, seen))
  {
    hide EntitlementsAt, FlagsAt;
    assert EntitlementsOf(sig, plist, seen + [at])[..|seen|] == EntitlementsOf(sig, plist, seen);
    assert FlagsOf(sig, seen + [at])[..|seen|] == FlagsOf(sig, seen);
  }

  // ---- Thin images ----

  /** Where an accepted signature command points: inside the slice, and not huge. */
  predicate Accepted(dataOff: nat, dataSize: nat, size: nat) {
    0 < dataSize <= MAX_SIG_BYTES && dataOff <= size && dataSize <= size - dataOff
  }

  /** The accepted signature commands among the load commands from `off` on. */
  function SignatureCommands(lcs: Bytes, endian: Endian, size: nat, off: nat, n: nat): seq<(nat, nat)>
    decreases n
  {
    if n == 0 || off + 8 > |lcs| then []
    else
      var cmdSize := U32(lcs, off + 4, endian);
      var here := CommandAt(lcs, endian, size, off);
      (if here.Some? then [here.value] else []) +
      if cmdSize == 0 then [] else SignatureCommands(lcs, endian, size, off + cmdSize, n - 1)
  }

  function HeaderSize(bits: nat): nat { if bits == 64 then 32 else 28 }

  /** A thin image at `base`: its architecture, and the signature that its last
      accepted signature command names. */
  function Thin(file: Bytes, base: nat, endian: Endian, bits: nat, size: nat, plist: Plist): Option<Info> {
    var header := HeaderSize(bits);
    var hdr := Slice(file, base, base + header);
    if size < header || |hdr| < header then None
    else
      var arch := ArchName(U32(hdr, 4, endian), U32(hdr, 8, endian));
      var commandBytes := U32(hdr, 20, endian);
      if commandBytes <= 0 || commandBytes > MAX_COMMAND_BYTES || commandBytes > size - header
      then Some(Info(arch, UNSIGNED))
      else
        var lcs := Slice(file, base + header, base + header + commandBytes);
        var found := SignatureCommands(lcs, endian, size, 0, U32(hdr, 16, endian));
        Some(Info(arch, SignatureFrom(file, base, found, plist)))
  }

  function SignatureFrom(file: Bytes, base: nat, found: seq<(nat, nat)>, plist: Plist): Signature {
    if found == [] then UNSIGNED
    else
      var (off, size) := found[|found| - 1];
      CodeSignature(Slice(file, base + off, base + off + size), plist)
  }

  /** The command at `off`, when it is an accepted signature command. */
  function CommandAt(lcs: Bytes, endian: Endian, size: nat, off: nat): Option<(nat, nat)> {
    if U32(lcs, off, endian) == LC_CODE_SIGNATURE && off + 16 <= |lcs| &&
       Accepted(U32(lcs, off + 8, endian), U32(lcs, off + 12, endian), size)
    then Some((U32(lcs, off + 8, endian), U32(lcs, off + 12, endian))) else None
  }

  /** The commands still to come extend what has been found. */
  ghost predicate Scanned(lcs: Bytes, endian: Endian, size: nat, ncmds: nat, off: nat, n: nat, found: seq<(nat, nat)>) {
    found + SignatureCommands(lcs, endian, size, off, n) == SignatureCommands(lcs, endian, size, 0, ncmds)
  }

  function Appended(found: seq<(nat, nat)>, c: Option<(nat, nat)>): seq<(nat, nat)> {
    if c.Some? then found + [c.value] else found
  }

  lemma CommandsStep(lcs: Bytes, endian: Endian, size: nat, off: nat, n: nat)
    requires n > 0 && off + 8 <= |lcs|
    ensures SignatureCommands(lcs, endian, size, off, n) ==
              Appended([], CommandAt(lcs, endian, size, off)) +
              if U32(lcs, off + 4, endian) == 0 then []
              else SignatureCommands(lcs, endian, size, off + U32(lcs, off + 4, endian), n - 1)
  {
    hide U32, CommandAt;
  }

  lemma AppendedFirst(found: seq<(nat, nat)>, c: Option<(nat, nat)>, rest: seq<(nat, nat)>)
    ensures found + (Appended([], c) + rest) == Appended(found, c) + rest
  {
  }

  lemma ScannedNext(lcs: Bytes, endian: Endian, size: nat, ncmds: nat, off: nat, n: nat, found: seq<(nat, nat)>)
    requires Scanned(lcs, endian, size, ncmds, off, n, found) && n > 0 && off + 8 <= |lcs|
    ensures var next := Appended(found, CommandAt(lcs, endian, size, off));
            if U32(lcs, off + 4, endian) == 0 then next == SignatureCommands(lcs, endian, size, 0, ncmds)
            else Scanned(lcs, endian, size, ncmds, off + U32(lcs, off + 4, endian), n - 1, next)
  {
    hide U32, Accepted, SignatureCommands, CommandAt, Appended;
    CommandsStep(lcs, endian, size, off, n);
    var rest :=              if U32(lcs, off + 4, endian) == 0 then []
              else SignatureCommands(lcs, endian, size, off + U32(lcs, off + 4, endian), n - 1);
    var next := Appended(found, CommandAt(lcs, endian, size, off));
    AppendedFirst(found, CommandAt(lcs, endian, size, off), rest);
    assert next + [] == next;
  }

  lemma ScannedEnds(lcs: Bytes, endian: Endian, size: nat, ncmds: nat, off: nat, n: nat, found: seq<(nat, nat)>)
    requires Scanned(lcs, endian, size, ncmds, off, n, found) && (n == 0 || off + 8 > |lcs|)
    ensures found == SignatureCommands(lcs, endian, size, 0, ncmds)
  {
    assert SignatureCommands(lcs, endian, size, off, n) == [];
    hide SignatureCommands;
    assert found + [] == found;
  }

  lemma ScannedStarts(lcs: Bytes, endian: Endian, size: nat, ncmds: nat)
    ensures Scanned(lcs, endian, size, ncmds, 0, ncmds, [])
  {
    hide SignatureCommands;
    assert [] + SignatureCommands(lcs, endian, size, 0, ncmds) == SignatureCommands(lcs, endian, size, 0, ncmds);
  }

  lemma NextSignature(file: Bytes, base: nat, found: seq<(nat, nat)>, c: (nat, nat), plist: Plist)
    ensures SignatureFrom(file, base, found + [c], plist) ==
              CodeSignature(Slice(file, base + c.0, base + c.0 + c.1), plist)
  {
    hide CodeSignature, Slice;
  }

  /** The command loop of `_parse_thin`. */
  method ScanCommands(file: Bytes, base: nat, lcs: Bytes, endian: Endian, size: nat, ncmds: nat, plist: Plist)
    returns (signature: Signature)
    ensures signature == SignatureFrom(file, base, SignatureCommands(lcs, endian, size, 0, ncmds), plist)
  {
    hide U32, Accepted, CodeSignature, SignatureCommands, Scanned, Slice;
    ghost var found: seq<(nat, nat)> := [];
    signature := UNSIGNED;
    ScannedStarts(lcs, endian, size, ncmds);
    var off: nat, n: nat := 0, ncmds;
    while n > 0
      invariant Scanned(lcs, endian, size, ncmds, off, n, found)
      invariant signature == SignatureFrom(file, base, found, plist)
    {
      if off + 8 > |lcs| { break; }
      ScannedNext(lcs, endian, size, ncmds, off, n, found);
      var cmd, cmdSize := U32(lcs, off, endian), U32(lcs, off + 4, endian);
      if cmd == LC_CODE_SIGNATURE && off + 16 <= |lcs| {
        var dataOff, dataSize := U32(lcs, off + 8, endian), U32(lcs, off + 12, endian);
        if Accepted(dataOff, dataSize, size) {
          NextSignature(file, base, found, (dataOff, dataSize), plist);
          signature := ParseCodesig(Slice(file, base + dataOff, base + dataOff + dataSize), plist);
          found := found + [(dataOff, dataSize)];
        }
      }
      if cmdSize == 0 { return; }
      off, n := off + cmdSize, n - 1;
    }
    ScannedEnds(lcs, endian, size, ncmds, off, n, found);
  }

  /** `_parse_thin`. */
  method ParseThin(file: Bytes, base: nat, endian: Endian, bits: nat, size: nat, plist: Plist)
    returns (info: Option<Info>)
    ensures info == Thin(file, base, endian, bits, size, plist)
  {
    hide U32, CodeSignature, ArchName, SignatureCommands, SignatureFrom, Slice;
    var header := HeaderSize(bits);
    if size < header { return None; }
    var hdr := Slice(file, base, base + header);
    if |hdr| < header { return None; }
    var arch := ArchName(U32(hdr, 4, endian), U32(hdr, 8, endian));
    var ncmds, commandBytes := U32(hdr, 16, endian), U32(hdr, 20, endian);
    if commandBytes <= 0 || commandBytes > MAX_COMMAND_BYTES { return Some(Info(arch, UNSIGNED)); }
    if commandBytes > size - header { return Some(Info(arch, UNSIGNED)); }
    var lcs := Slice(file, base + header, base + header + commandBytes);
    var signature := ScanCommands(file, base, lcs, endian, size, ncmds, plist);
    return Some(Info(arch, signature));
  }

  // ---- Fat archives ----

  datatype FatEntry = FatEntry(offset: nat, size: nat)

  function EntryAt(entries: Bytes, wide: bool, i: nat): Option<FatEntry> {
    var width := if wide then 32 else 20;
    var e := Slice(entries, i * width, (i + 1) * width);
    if |e| < width then None
    else if wide then Some(FatEntry(FromBig(e[8..16]), FromBig(e[16..24])))
    else Some(FatEntry(FromBig(e[8..12]), FromBig(e[12..16])))
  }

  predicate InBounds(e: FatEntry, fileSize: nat) {
    e.size >= 4 && e.offset <= fileSize && e.size <= fileSize - e.offset
  }

  /** What one slice contributes: a thin image that parses, or nothing. */
  function SliceInfo(file: Bytes, e: FatEntry, plist: Plist): Option<Info> {
    if !InBounds(e, |file|) then None
    else
      var magic := ThinMagic(Slice(file, e.offset, e.offset + 4));
      if magic.None? then None
      else Thin(file, e.offset, magic.value.0, magic.value.1, e.size, plist)
  }

  /** The slices that parse, in order, up to the first truncated entry. */
  function SliceInfos(file: Bytes, entries: Bytes, wide: bool, i: nat, n: nat, plist: Plist): seq<Info>
    decreases if i <= n then n - i else 0
  {
    if i >= n then []
    else
      var e := EntryAt(entries, wide, i);
      if e.None? then []
      else
        var info := SliceInfo(file, e.value, plist);
        (if info.Some? then [info.value] else []) + SliceInfos(file, entries, wide, i + 1, n, plist)
  }

  function FatInfos(file: Bytes, head: Bytes, plist: Plist): seq<Info> {
    var n := U32(Slice(file, 0, 8), 4, Big);
    var wide := head == FAT_MAGIC_64;
    if n <= 0 || n > 64 then []
    else SliceInfos(file, Slice(file, 8, 8 + n * (if wide then 32 else 20)), wide, 0, n, plist)
  }

  /** The last arm64 slice that parses, or else the first slice that parses. */
  ghost predicate Preferred(infos: seq<Info>, best: Option<Info>) {
    if infos == [] then best.None?
    else if exists k :: 0 <= k < |infos| && infos[k].arch.IsArm64() then
      exists k :: 0 <= k < |infos| && best == Some(infos[k]) && infos[k].arch.IsArm64() &&
        forall j | k < j < |infos| :: !infos[j].arch.IsArm64()
    else best == Some(infos[0])
  }

  lemma PreferredNext(infos: seq<Info>, best: Option<Info>, next: Info)
    requires Preferred(infos, best)
    ensures Preferred(infos + [next], if best.None? || next.arch.IsArm64() then Some(next) else best)
  {
    var all := infos + [next];
    if next.arch.IsArm64() {
      assert all[|infos|] == next;
    } else if exists k :: 0 <= k < |infos| && infos[k].arch.IsArm64() {
      var k :| 0 <= k < |infos| && best == Some(infos[k]) && infos[k].arch.IsArm64() &&
               forall j | k < j < |infos| :: !infos[j].arch.IsArm64();
      assert all[k] == infos[k];
    }
  }

  /** The slices seen so far and those to come are all of them. */
  ghost predicate Gathered(file: Bytes, entries: Bytes, wide: bool, i: nat, n: nat, plist: Plist, seen: seq<Info>) {
    seen + SliceInfos(file, entries, wide, i, n, plist) == SliceInfos(file, entries, wide, 0, n, plist)
  }

  lemma GatheredNext(file: Bytes, entries: Bytes, wide: bool, i: nat, n: nat, plist: Plist, seen: seq<Info>)
    requires Gathered(file, entries, wide, i, n, plist, seen) && i < n && EntryAt(entries, wide, i).Some?
    ensures Gathered(file, entries, wide, i + 1, n, plist, seen + Taken(file, EntryAt(entries, wide, i).value, plist))
  {
    hide EntryAt, SliceInfos, Taken;
    InfosStep(file, entries, wide, i, n, plist);
    var taken, rest := Taken(file, EntryAt(entries, wide, i).value, plist),
                       SliceInfos(file, entries, wide, i + 1, n, plist);
    assert seen + (taken + rest) == seen + taken + rest;
  }

  lemma GatheredEnds(file: Bytes, entries: Bytes, wide: bool, i: nat, n: nat, plist: Plist, seen: seq<Info>)
    requires Gathered(file, entries, wide, i, n, plist, seen) && (i >= n || EntryAt(entries, wide, i).None?)
    ensures seen == SliceInfos(file, entries, wide, 0, n, plist)
  {
    hide EntryAt, SliceInfos;
    InfosStep(file, entries, wide, i, n, plist);
    assert seen + [] == seen;
  }

  lemma GatheredStarts(file: Bytes, entries: Bytes, wide: bool, n: nat, plist: Plist)
    ensures Gathered(file, entries, wide, 0, n, plist, [])
  {
    hide SliceInfos;
    assert [] + SliceInfos(file, entries, wide, 0, n, plist) == SliceInfos(file, entries, wide, 0, n, plist);
  }

  /** `_parse_fat`. */
  method ParseFat(file: Bytes, head: Bytes, plist: Plist) returns (best: Option<Info>)
    ensures Preferred(FatInfos(file, head, plist), best)
  {
    hide U32, EntryAt, Thin, ThinMagic, Preferred, SliceInfos, Slice, Gathered, Taken, InBounds;
    var n := U32(Slice(file, 0, 8), 4, Big);
    var wide := head == FAT_MAGIC_64;
    best := None;
    NothingPreferred();
    if n <= 0 || n > 64 { return; }
    var entries := Slice(file, 8, 8 + n * (if wide then 32 else 20));
    ghost var seen: seq<Info> := [];
    GatheredStarts(file, entries, wide, n, plist);
    var i: nat := 0;
    while i < n
      invariant i <= n && Gathered(file, entries, wide, i, n, plist, seen) && Preferred(seen, best)
    {
      var e := EntryAt(entries, wide, i);
      if e.None? { break; }
      GatheredNext(file, entries, wide, i, n, plist, seen);
      seen, best := TakeSlice(file, e.value, plist, seen, best);
      i := i + 1;
    }
    GatheredEnds(file, entries, wide, i, n, plist, seen);
  }

  /** One entry of the archive, against the best so far. */
  method TakeSlice(file: Bytes, e: FatEntry, plist: Plist, ghost seen: seq<Info>, best: Option<Info>)
    returns (ghost now: seq<Info>, better: Option<Info>)
    requires Preferred(seen, best)
    ensures now == seen + Taken(file, e, plist) && Preferred(now, better)
  {
    hide Thin, ThinMagic, Preferred, Slice;
    now, better := seen, best;
    if !InBounds(e, |file|) { return; }
    var magic := ThinMagic(Slice(file, e.offset, e.offset + 4));
    if magic.None? { return; }
    var info := ParseThin(file, e.offset, magic.value.0, magic.value.1, e.size, plist);
    if info.Some? {
      PreferredNext(seen, best, info.value);
      now := seen + [info.value];
      if best.None? || info.value.arch.IsArm64() { better := info; }
    }
  }

  lemma InfosStep(file: Bytes, entries: Bytes, wide: bool, i: nat, n: nat, plist: Plist)
    ensures SliceInfos(file, entries, wide, i, n, plist) ==
              if i >= n || EntryAt(entries, wide, i).None? then []
              else Taken(file, EntryAt(entries, wide, i).value, plist) +
                   SliceInfos(file, entries, wide, i + 1, n, plist)
  {
    hide EntryAt, SliceInfo;
  }

  /** At most one info from a slice. */
  function Taken(file: Bytes, e: FatEntry, plist: Plist): (q: seq<Info>)
    ensures !InBounds(e, |file|) || ThinMagic(Slice(file, e.offset, e.offset + 4)).None? ==> q == []
    ensures InBounds(e, |file|) && ThinMagic(Slice(file, e.offset, e.offset + 4)).Some? ==>
              var m := ThinMagic(Slice(file, e.offset, e.offset + 4)).value;
              var info := Thin(file, e.offset, m.0, m.1, e.size, plist);
              q == if info.Some? then [info.value] else []
  {
    var info := SliceInfo(file, e, plist);
    if info.Some? then [info.value] else []
  }

  lemma NothingPreferred()
    ensures Preferred([], None)
  {}

  /** What a whole file may give. */
  ghost predicate IsInfo(file: Bytes, plist: Plist, info: Option<Info>) {
    var head := Slice(file, 0, 4);
    if |head| < 4 then info.None?
    else if FatMagic(head) then Preferred(FatInfos(file, head, plist), info)
    else if ThinMagic(head).Some?
    then info == Thin(file, 0, ThinMagic(head).value.0, ThinMagic(head).value.1, |file|, plist)
    else info.None?
  }

  /** `macho_info` on a file that can be opened. */
  method MachoInfo(file: Bytes, plist: Plist) returns (info: Option<Info>)
    ensures IsInfo(file, plist, info)
  {
    hide Thin, FatInfos, Preferred;
    var head := Slice(file, 0, 4);
    if |head| < 4 { return None; }
    if FatMagic(head) {
      info := ParseFat(file, head, plist);
      return;
    }
    var magic := ThinMagic(head);
    if magic.None? { return None; }
    info := ParseThin(file, 0, magic.value.0, magic.value.1, |file|, plist);
  }

  // ---- A slice is a file of its own ----

  lemma SliceOfSlice(file: Bytes, base: nat, size: nat, from: nat, to: nat)
    requires base + size <= |file| && from <= to <= size
    ensures Slice(file[base..base + size], from, to) == Slice(file, base + from, base + to)
  {
    var p, q := file[base..base + size][from..to], file[base + from..base + to];
    assert |p| == |q| && forall k | 0 <= k < |p| :: p[k] == q[k];
  }

  lemma {:induction false} CommandsAccepted(lcs: Bytes, endian: Endian, size: nat, off: nat, n: nat)
    ensures forall k | 0 <= k < |SignatureCommands(lcs, endian, size, off, n)| ::
              var c := SignatureCommands(lcs, endian, size, off, n)[k]; Accepted(c.0, c.1, size)
    decreases n
  {
    hide U32, Accepted;
    if n > 0 && off + 8 <= |lcs| && U32(lcs, off + 4, endian) != 0 {
      CommandsAccepted(lcs, endian, size, off + U32(lcs, off + 4, endian), n - 1);
    }
  }

  /** Every read a thin image makes stays inside its declared size. */
  lemma ThinConfined(file: Bytes, base: nat, endian: Endian, bits: nat, size: nat, plist: Plist)
    requires base + size <= |file|
    ensures Thin(file, base, endian, bits, size, plist) == Thin(file[base..base + size], 0, endian, bits, size, plist)
  {
    hide U32, ArchName, CodeSignature, Slice;
    var header := HeaderSize(bits);
    if size >= header {
      SliceOfSlice(file, base, size, 0, header);
      var hdr := Slice(file, base, base + header);
      var commandBytes := U32(hdr, 20, endian);
      if |hdr| >= header && 0 < commandBytes <= MAX_COMMAND_BYTES && commandBytes <= size - header {
        SliceOfSlice(file, base, size, header, header + commandBytes);
        var lcs := Slice(file, base + header, base + header + commandBytes);
        var found := SignatureCommands(lcs, endian, size, 0, U32(hdr, 16, endian));
        CommandsAccepted(lcs, endian, size, 0, U32(hdr, 16, endian));
        if found != [] {
          var c := found[|found| - 1];
          SliceOfSlice(file, base, size, c.0, c.0 + c.1);
        }
      }
    }
  }

  lemma FatIsNotThin(head: Bytes)
    ensures FatMagic(head) ==> |head| == 4 && ThinMagic(head).None?
  {
    if FatMagic(head) { assert head[0] == 0xCA; }
  }

  lemma SliceLength(b: Bytes, n: nat)
    ensures |Slice(b, 0, n)| == if n < |b| then n else |b|
  {}

  /** Something is preferred exactly when some slice parses. */
  lemma PreferredSome(infos: seq<Info>, best: Option<Info>)
    requires Preferred(infos, best)
    ensures best.Some? <==> infos != []
  {
  }

  /** A slice inside a fat file parses as it does extracted into a file of its
      own, except that an extracted slice which is itself a fat archive with a
      slice that parses gives that one, while in place it is passed over. */
  lemma SliceParsesAsFile(file: Bytes, e: FatEntry, plist: Plist, extracted: Option<Info>)
    requires e.offset + e.size <= |file|
    requires IsInfo(file[e.offset..e.offset + e.size], plist, extracted)
    ensures var own := file[e.offset..e.offset + e.size];
            var head := Slice(own, 0, 4);
            SliceInfo(file, e, plist) == extracted <==> !(FatMagic(head) && FatInfos(own, head, plist) != [])
  {
    hide Thin, FatInfos, Preferred, ThinMagic, FatMagic, Slice;
    var own := file[e.offset..e.offset + e.size];
    var head := Slice(own, 0, 4);
    FatIsNotThin(head);
    SliceLength(own, 4);
    if e.size >= 4 {
      SliceOfSlice(file, e.offset, e.size, 0, 4);
      if FatMagic(head) { PreferredSome(FatInfos(own, head, plist), extracted); }
      var magic := ThinMagic(head);
      if magic.Some? { ThinConfined(file, e.offset, magic.value.0, magic.value.1, e.size, plist); }
    }
  }

  // ---- An archive in an archive ----

  /** An archive of one slice, which follows its header and its entry. */
  function Archive(slice: Bytes): Bytes
    requires |slice| < 256
  {
    FAT_MAGIC + [0, 0, 0, 1] + [0, 0, 0, 0, 0, 0, 0, 0, 0, 0, 0, 28, 0, 0, 0, |slice| as byte, 0, 0, 0, 0] + slice
  }

  /** The smallest thin image: a 32-bit header without load commands. */
  const BARE_IMAGE: Bytes := MH_32_LITTLE + [0, 0, 0, 0, 0, 0, 0, 0, 0, 0, 0, 0, 0, 0, 0, 0, 0, 0, 0, 0, 0, 0, 0, 0]

  lemma SmallNumber(b: Bytes)
    requires |b| == 4 && b[0] == b[1] == b[2] == 0
    ensures FromBig(b) == b[3] as nat
  {
    assert FromBig(b[..3][..2][..1]) == 0;
    assert FromBig(b[..3][..2]) == 0;
    assert FromBig(b[..3]) == 0;
  }

  lemma ArchiveLayout(slice: Bytes)
    requires 4 <= |slice| < 256
    ensures var file := Archive(slice);
            |file| == 28 + |slice| && Slice(file, 0, 4) == FAT_MAGIC && file[28..28 + |slice|] == slice &&
            U32(Slice(file, 0, 8), 4, Big) == 1 &&
            EntryAt(Slice(file, 8, 28), false, 0) == Some(FatEntry(28, |slice|))
  {
    hide FromBig;
    var file := Archive(slice);
    assert file[28..28 + |slice|] == slice;
    assert file[0..4] == FAT_MAGIC;
    var count := Slice(Slice(file, 0, 8), 4, 8);
    assert count == file[4..8] == [0, 0, 0, 1];
    SmallNumber(count);
    var entry := Slice(Slice(file, 8, 28), 0, 20);
    assert entry == file[8..28];
    assert entry[8..12] == file[16..20] == [0, 0, 0, 28];
    assert entry[12..16] == file[20..24] == [0, 0, 0, |slice| as byte];
    SmallNumber(entry[8..12]);
    SmallNumber(entry[12..16]);
  }

  lemma ArchiveInfos(slice: Bytes, plist: Plist)
    requires 4 <= |slice| < 256
    ensures FatInfos(Archive(slice), FAT_MAGIC, plist) == Taken(Archive(slice), FatEntry(28, |slice|), plist)
  {
    hide U32, EntryAt, Archive, Slice, Taken;
    ArchiveLayout(slice);
    var file, entries := Archive(slice), Slice(Archive(slice), 8, 28);
    assert FAT_MAGIC[3] != FAT_MAGIC_64[3];
    InfosStep(file, entries, false, 0, 1, plist);
    InfosStep(file, entries, false, 1, 1, plist);
  }

  lemma BareParses(plist: Plist)
    ensures |BARE_IMAGE| == 28 && ThinMagic(Slice(BARE_IMAGE, 0, 4)) == Some((Little, 32))
    ensures Thin(BARE_IMAGE, 0, Little, 32, 28, plist).Some?
  {
    hide U32, SignatureCommands, SignatureFrom;
    var head := Slice(BARE_IMAGE, 0, 4);
    assert head == MH_32_LITTLE && head[0] == 0xCE && head[0] != MH_64_LITTLE[0] && head[0] != MH_64_BIG[0];
  }

  /** A slice in place against the same slice in a file of its own. The outer
      archive is passed over as a whole; its one slice, extracted, is not. */
  lemma NestedArchive(plist: Plist, outer: Option<Info>, inner: Option<Info>)
    requires IsInfo(Archive(Archive(BARE_IMAGE)), plist, outer)
    requires IsInfo(Archive(BARE_IMAGE), plist, inner)
    ensures Archive(Archive(BARE_IMAGE))[28..84] == Archive(BARE_IMAGE)
    ensures SliceInfo(Archive(Archive(BARE_IMAGE)), FatEntry(28, 56), plist).None?
    ensures outer.None? && inner.Some?
  {
    hide Archive, Thin, FatInfos, Preferred, ThinMagic, Slice, Taken, U32, EntryAt;
    BareParses(plist);
    var own := Archive(BARE_IMAGE);
    ArchiveLayout(BARE_IMAGE);
    ArchiveLayout(own);
    ArchiveInfos(BARE_IMAGE, plist);
    ArchiveInfos(own, plist);
    OneSlice(BARE_IMAGE, plist, (Little, 32));
    PassedOver(own, plist);
    PreferredSome(FatInfos(own, FAT_MAGIC, plist), inner);
    PreferredSome(FatInfos(Archive(own), FAT_MAGIC, plist), outer);
  }

  lemma OneSlice(slice: Bytes, plist: Plist, magic: (Endian, nat))
    requires 4 <= |slice| < 256 && ThinMagic(Slice(slice, 0, 4)) == Some(magic)
    requires Thin(slice, 0, magic.0, magic.1, |slice|, plist).Some?
    ensures Taken(Archive(slice), FatEntry(28, |slice|), plist) != []
  {
    hide Archive, Thin, ThinMagic, Slice, U32, EntryAt;
    ArchiveLayout(slice);
    SliceOfSlice(Archive(slice), 28, |slice|, 0, 4);
    ThinConfined(Archive(slice), 28, magic.0, magic.1, |slice|, plist);
  }

  lemma PassedOver(slice: Bytes, plist: Plist)
    requires 4 <= |slice| < 256 && FatMagic(Slice(slice, 0, 4))
    ensures Taken(Archive(slice), FatEntry(28, |slice|), plist) == []
    ensures SliceInfo(Archive(slice), FatEntry(28, |slice|), plist).None?
  {
    hide Archive, Thin, Slice, U32, EntryAt, ThinMagic, FatMagic;
    ArchiveLayout(slice);
    SliceOfSlice(Archive(slice), 28, |slice|, 0, 4);
    FatIsNotThin(Slice(slice, 0, 4));
  }
}
