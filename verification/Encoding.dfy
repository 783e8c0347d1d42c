/**
 Byte strings that bind keys and ciphertexts to their purpose
 (crates/fileferry-crypto/src/lib.rs): associated data of objects and key
 slots, and the HKDF `info` of subkeys (section 2.3 of RFC 5869).
 */
module Encoding {

  type Byte = x: int | 0 <= x < 256

  type Bytes = seq<Byte>

  predicate IsAscii(s: string) {
    forall i :: 0 <= i < |s| ==> s[i] < 128 as char
  }

  type AsciiText = s: string | IsAscii(s)

  /** The bytes of an ASCII literal. */
  function Ascii(s: AsciiText): (b: Bytes)
    ensures |b| == |s|
  {
    seq(|s|, i requires 0 <= i < |s| && s[i] < 128 as char => s[i] as int)
  }

  lemma AsciiAt(s: AsciiText, i: nat)
    requires i < |s|
    ensures Ascii(s)[i] == s[i] as int
  {
  }

  /** `to_le_bytes` of an integer of `width` bytes. */
  function LittleEndian(n: nat, width: nat): (b: Bytes)
    ensures |b| == width
  {
    if width == 0 then [] else [n % 256] + LittleEndian(n / 256, width - 1)
  }

  function FromLittleEndian(b: Bytes): nat {
    if b == [] then 0 else b[0] + 256 * FromLittleEndian(b[1..])
  }

  function Capacity(width: nat): nat {
    if width == 0 then 1 else 256 * Capacity(width - 1)
  }

  lemma {:induction false} LittleEndianRoundTrip(n: nat, width: nat)
    requires n < Capacity(width)
    ensures FromLittleEndian(LittleEndian(n, width)) == n
  {
    if width > 0 {
      LittleEndianRoundTrip(n / 256, width - 1);
      assert LittleEndian(n, width)[1..] == LittleEndian(n / 256, width - 1);
    }
  }

  lemma {:induction false} LittleEndianIsInjective(m: nat, n: nat, width: nat)
    requires m < Capacity(width) && n < Capacity(width)
    requires LittleEndian(m, width) == LittleEndian(n, width)
    ensures m == n
  {
    LittleEndianRoundTrip(m, width);
    LittleEndianRoundTrip(n, width);
  }

  /** A length as eight bytes, then the value. */
  function LenPrefixed(value: Bytes): Bytes {
    LittleEndian(|value|, 8) + value
  }

  predicate FitsU64(value: Bytes) {
    |value| < Capacity(8)
  }

  lemma SplitEqualHeads(a: Bytes, x: Bytes, b: Bytes, y: Bytes)
    requires |a| == |b| && a + x == b + y
    ensures a == b && x == y
  {
    assert a == (a + x)[..|a|] && x == (a + x)[|a|..];
    assert b == (b + y)[..|b|] && y == (b + y)[|b|..];
  }

  /** A length-prefixed value can be read back whatever follows it. */
  lemma LenPrefixedIsSelfDelimiting(a: Bytes, x: Bytes, b: Bytes, y: Bytes)
    requires FitsU64(a) && FitsU64(b)
    requires LenPrefixed(a) + x == LenPrefixed(b) + y
    ensures a == b && x == y
  {
    var la, lb := LittleEndian(|a|, 8), LittleEndian(|b|, 8);
    assert LenPrefixed(a) + x == la + (a + x) && LenPrefixed(b) + y == lb + (b + y);
    SplitEqualHeads(la, a + x, lb, b + y);
    LittleEndianIsInjective(|a|, |b|, 8);
    SplitEqualHeads(a, x, b, y);
  }

  // ---------- The mutable buffer the source appends to ----------

  class ByteBuffer {
    var bytes: Bytes

    constructor ()
      ensures bytes == []
    {
      bytes := [];
    }

    method Extend(more: Bytes)
      modifies this
      ensures bytes == old(bytes) + more
    {
      bytes := bytes + more;
    }

    method Push(b: Byte)
      modifies this
      ensures bytes == old(bytes) + [b]
    {
      bytes := bytes + [b];
    }

    /** `write_len_prefixed` */
    method WriteLenPrefixed(value: Bytes)
      modifies this
      ensures bytes == old(bytes) + LenPrefixed(value)
    {
      Extend(LittleEndian(|value|, 8));
      Extend(value);
      assert old(bytes) + LittleEndian(|value|, 8) + value == old(bytes) + LenPrefixed(value);
    }
  }

  // ---------- Associated data of objects ----------

  datatype ObjectKind = Chunk | SnapshotManifest | Index | PolicyConfig | RepositoryConfig | UploadState | PruneMark

  const POLICY_CONFIG: AsciiText := "policy-config"
  const UPLOAD_STATE: AsciiText := "upload-state"
  const PRUNE_MARK: AsciiText := "prune-mark"

  function KindLabel(kind: ObjectKind): (text: AsciiText)
    ensures |text| < 256
  {
    match kind
    case Chunk => "chunk"
    case SnapshotManifest => "snapshot-manifest"
    case Index => "index"
    case PolicyConfig => POLICY_CONFIG
    case RepositoryConfig => "repository-config"
    case UploadState => UPLOAD_STATE
    case PruneMark => PRUNE_MARK
  }

  datatype ObjectContext = ObjectContext(formatVersion: nat, kind: ObjectKind, name: Bytes)

  /** What `ObjectContext::for_format` accepts, with a u16 version and a name that fits in memory. */
  predicate ValidContext(c: ObjectContext) {
    c.formatVersion < 0x1_0000 && c.name != [] && 0 !in c.name && FitsU64(c.name)
  }

  const FORMAT_PREFIX: AsciiText := "fileferry\0format-v0\0"

  const OBJECT_AAD_PREFIX: AsciiText := FORMAT_PREFIX + "object\0"

  const KEY_SLOT_AAD_PREFIX: AsciiText := FORMAT_PREFIX + "key-slot-wrap\0"

  const SUBKEY_INFO_PREFIX: AsciiText := "fileferry\0subkey\0"

  function ObjectAad(c: ObjectContext): Bytes {
    Ascii(OBJECT_AAD_PREFIX) + LittleEndian(c.formatVersion, 2)
    + LenPrefixed(Ascii(KindLabel(c.kind))) + LenPrefixed(c.name)
  }

  /** `ObjectContext::aad` */
  method BuildObjectAad(c: ObjectContext) returns (aad: Bytes)
    ensures aad == ObjectAad(c)
  {
    var buffer := new ByteBuffer();
    buffer.Extend(Ascii(OBJECT_AAD_PREFIX));
    buffer.Extend(LittleEndian(c.formatVersion, 2));
    buffer.WriteLenPrefixed(Ascii(KindLabel(c.kind)));
    buffer.WriteLenPrefixed(c.name);
    aad := buffer.bytes;
    assert [] + Ascii(OBJECT_AAD_PREFIX) == Ascii(OBJECT_AAD_PREFIX);
  }

  lemma KindLabelsDiffer(k: ObjectKind, l: ObjectKind)
    requires Ascii(KindLabel(k)) == Ascii(KindLabel(l))
    ensures k == l
  {
    assert |KindLabel(k)| == |KindLabel(l)|;
    assert Ascii(KindLabel(k))[1] == Ascii(KindLabel(l))[1];
  }

  lemma ObjectAadParts(c: ObjectContext)
    ensures ObjectAad(c) ==
            Ascii(OBJECT_AAD_PREFIX)
            + (LittleEndian(c.formatVersion, 2) + (LenPrefixed(Ascii(KindLabel(c.kind))) + LenPrefixed(c.name)))
  {
    hide Ascii, LittleEndian, LenPrefixed, KindLabel;
  }

  /** Two contexts with the same associated data are the same context. */
  lemma ObjectAadIsInjective(c: ObjectContext, d: ObjectContext)
    requires ValidContext(c) && ValidContext(d) && ObjectAad(c) == ObjectAad(d)
    ensures c == d
  {
    hide KindLabel, Ascii, LittleEndian, LenPrefixed, Capacity, ObjectAad;
    var prefix := Ascii(OBJECT_AAD_PREFIX);
    var vc, vd := LittleEndian(c.formatVersion, 2), LittleEndian(d.formatVersion, 2);
    var lc, ld := Ascii(KindLabel(c.kind)), Ascii(KindLabel(d.kind));
    var nc, nd := LenPrefixed(c.name), LenPrefixed(d.name);
    ObjectAadParts(c);
    ObjectAadParts(d);
    SplitEqualHeads(prefix, vc + (LenPrefixed(lc) + nc), prefix, vd + (LenPrefixed(ld) + nd));
    SplitEqualHeads(vc, LenPrefixed(lc) + nc, vd, LenPrefixed(ld) + nd);
    CapacityOf(2);
    LittleEndianIsInjective(c.formatVersion, d.formatVersion, 2);
    CapacityOf(8);
    LenPrefixedIsSelfDelimiting(lc, nc, ld, nd);
    KindLabelsDiffer(c.kind, d.kind);
    assert nc == nc + [] && nd == nd + [];
    LenPrefixedIsSelfDelimiting(c.name, [], d.name, []);
  }

  lemma {:induction false} CapacityOf(width: nat)
    ensures width == 2 ==> Capacity(width) == 0x1_0000
    ensures width == 4 ==> Capacity(width) == 0x1_0000_0000
    ensures width == 8 ==> Capacity(width) == 0x1_0000_0000_0000_0000
  {
    assert Capacity(2) == 0x1_0000;
    assert Capacity(4) == 0x1_0000 * Capacity(2);
    assert Capacity(6) == 0x1_0000 * Capacity(4);
    assert Capacity(8) == 0x1_0000 * Capacity(6);
  }

  // ---------- Associated data of key slots ----------

  datatype KdfParams = KdfParams(memoryCostKib: nat, timeCost: nat, parallelism: nat)

  predicate ValidKdf(k: KdfParams) {
    k.memoryCostKib < 0x1_0000_0000 && k.timeCost < 0x1_0000_0000 && k.parallelism < 0x1_0000_0000
  }

  /** The tag of Argon2id version 19, the only algorithm. */
  const ARGON2ID_V19: Byte := 1

  function KeySlotAad(k: KdfParams, salt: Bytes): Bytes {
    Ascii(KEY_SLOT_AAD_PREFIX) + [ARGON2ID_V19] + LittleEndian(k.memoryCostKib, 4) + LittleEndian(k.timeCost, 4)
    + LittleEndian(k.parallelism, 4) + LenPrefixed(salt)
  }

  /** `key_slot_aad` */
  method BuildKeySlotAad(k: KdfParams, salt: Bytes) returns (aad: Bytes)
    ensures aad == KeySlotAad(k, salt)
  {
    var buffer := new ByteBuffer();
    buffer.Extend(Ascii(KEY_SLOT_AAD_PREFIX));
    buffer.Push(ARGON2ID_V19);
    buffer.Extend(LittleEndian(k.memoryCostKib, 4));
    buffer.Extend(LittleEndian(k.timeCost, 4));
    buffer.Extend(LittleEndian(k.parallelism, 4));
    buffer.WriteLenPrefixed(salt);
    aad := buffer.bytes;
    assert [] + Ascii(KEY_SLOT_AAD_PREFIX) == Ascii(KEY_SLOT_AAD_PREFIX);
  }

  lemma KeySlotAadParts(k: KdfParams, salt: Bytes)
    ensures KeySlotAad(k, salt) ==
            (Ascii(KEY_SLOT_AAD_PREFIX) + [ARGON2ID_V19])
            + (LittleEndian(k.memoryCostKib, 4)
               + (LittleEndian(k.timeCost, 4) + (LittleEndian(k.parallelism, 4) + LenPrefixed(salt))))
  {
    hide Ascii, LittleEndian, LenPrefixed;
  }

  lemma KeySlotAadIsInjective(k: KdfParams, salt: Bytes, l: KdfParams, tlas: Bytes)
    requires ValidKdf(k) && ValidKdf(l) && FitsU64(salt) && FitsU64(tlas)
    requires KeySlotAad(k, salt) == KeySlotAad(l, tlas)
    ensures k == l && salt == tlas
  {
    hide Ascii, LittleEndian, LenPrefixed, Capacity, KeySlotAad;
    var prefix := Ascii(KEY_SLOT_AAD_PREFIX) + [ARGON2ID_V19];
    var mk, tk, pk := LittleEndian(k.memoryCostKib, 4), LittleEndian(k.timeCost, 4), LittleEndian(k.parallelism, 4);
    var ml, tl, pl := LittleEndian(l.memoryCostKib, 4), LittleEndian(l.timeCost, 4), LittleEndian(l.parallelism, 4);
    var sk, sl := LenPrefixed(salt), LenPrefixed(tlas);
    KeySlotAadParts(k, salt);
    KeySlotAadParts(l, tlas);
    SplitEqualHeads(prefix, mk + (tk + (pk + sk)), prefix, ml + (tl + (pl + sl)));
    SplitEqualHeads(mk, tk + (pk + sk), ml, tl + (pl + sl));
    SplitEqualHeads(tk, pk + sk, tl, pl + sl);
    SplitEqualHeads(pk, sk, pl, sl);
    CapacityOf(4);
    LittleEndianIsInjective(k.memoryCostKib, l.memoryCostKib, 4);
    LittleEndianIsInjective(k.timeCost, l.timeCost, 4);
    LittleEndianIsInjective(k.parallelism, l.parallelism, 4);
    CapacityOf(8);
    assert sk == sk + [] && sl == sl + [];
    LenPrefixedIsSelfDelimiting(salt, [], tlas, []);
  }

  /** A wrapped master key can never be passed off as an object, nor the reverse. */
  lemma SlotsAndObjectsAreSeparate(c: ObjectContext, k: KdfParams, salt: Bytes)
    ensures ObjectAad(c) != KeySlotAad(k, salt)
  {
    assert ObjectAad(c)[20] == Ascii(OBJECT_AAD_PREFIX)[20];
    assert KeySlotAad(k, salt)[20] == Ascii(KEY_SLOT_AAD_PREFIX)[20];
  }

  // ---------- Subkey derivation ----------

  datatype KeyPurpose =
    | ChunkIdentity | ChunkData | SnapshotMetadata | IndexKey | PolicyKey | UploadKey | PruneKey | KeySlotCheck

  function PurposeLabel(p: KeyPurpose): (text: AsciiText)
    ensures |text| < 256
  {
    match p
    case ChunkIdentity => "chunk-identity"
    case ChunkData => "chunk-data"
    case SnapshotMetadata => "snapshot-metadata"
    case IndexKey => "index"
    case PolicyKey => POLICY_CONFIG
    case UploadKey => UPLOAD_STATE
    case PruneKey => PRUNE_MARK
    case KeySlotCheck => "key-slot"
  }

  function SubkeyInfo(p: KeyPurpose, context: Bytes): Bytes {
    Ascii(SUBKEY_INFO_PREFIX) + Ascii(PurposeLabel(p)) + LenPrefixed(context)
  }

  /** The `info` built by `derive_subkey` */
  method BuildSubkeyInfo(p: KeyPurpose, context: Bytes) returns (info: Bytes)
    ensures info == SubkeyInfo(p, context)
  {
    var buffer := new ByteBuffer();
    buffer.Extend(Ascii(SUBKEY_INFO_PREFIX));
    buffer.Extend(Ascii(PurposeLabel(p)));
    buffer.WriteLenPrefixed(context);
    info := buffer.bytes;
    assert [] + Ascii(SUBKEY_INFO_PREFIX) == Ascii(SUBKEY_INFO_PREFIX);
  }

  /** The label has no length in front of it, so no label may begin another. */
  lemma PurposeLabelsArePrefixFree(p: KeyPurpose, q: KeyPurpose) returns (i: nat)
    requires p != q
    ensures i < |PurposeLabel(p)| && i < |PurposeLabel(q)|
    ensures Ascii(PurposeLabel(p))[i] != Ascii(PurposeLabel(q))[i]
  {
    hide Ascii, IsAscii;
    i := if PurposeLabel(p)[0] != PurposeLabel(q)[0] then 0
         else if PurposeLabel(p)[1] != PurposeLabel(q)[1] then 1 else 6;
    AsciiAt(PurposeLabel(p), i);
    AsciiAt(PurposeLabel(q), i);
  }

  /** Different purposes or contexts never derive from the same `info`. */
  lemma SubkeyInfoIsInjective(p: KeyPurpose, context: Bytes, q: KeyPurpose, other: Bytes)
    requires FitsU64(context) && FitsU64(other)
    requires SubkeyInfo(p, context) == SubkeyInfo(q, other)
    ensures p == q && context == other
  {
    hide PurposeLabel, Ascii, LenPrefixed;
    var prefix, lp, lq := Ascii(SUBKEY_INFO_PREFIX), Ascii(PurposeLabel(p)), Ascii(PurposeLabel(q));
    var cp, cq := LenPrefixed(context), LenPrefixed(other);
    assert SubkeyInfo(p, context) == prefix + (lp + cp) && SubkeyInfo(q, other) == prefix + (lq + cq);
    SplitEqualHeads(prefix, lp + cp, prefix, lq + cq);
    if p != q {
      LabelsSeparate(p, cp, q, cq);
    } else {
      SplitEqualHeads(lp, cp, lq, cq);
      assert cp == cp + [] && cq == cq + [];
      LenPrefixedIsSelfDelimiting(context, [], other, []);
    }
  }

  lemma LabelsSeparate(p: KeyPurpose, x: Bytes, q: KeyPurpose, y: Bytes)
    requires p != q
    ensures Ascii(PurposeLabel(p)) + x != Ascii(PurposeLabel(q)) + y
  {
    hide PurposeLabel, Ascii;
    var i := PurposeLabelsArePrefixFree(p, q);
    assert (Ascii(PurposeLabel(p)) + x)[i] == Ascii(PurposeLabel(p))[i];
    assert (Ascii(PurposeLabel(q)) + y)[i] == Ascii(PurposeLabel(q))[i];
  }
}
