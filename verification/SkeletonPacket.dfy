/**
 * The binary skeleton packet. The encoder pads strings relative to their own start, the decoder by
 * absolute offset; they agree because every field of a built packet starts at a multiple of four.
 * Which byte strings are valid UTF-8 is a parameter; 32-bit floats are their bit patterns.
 */
module SkeletonPacket {
  import opened Wrappers

  type Byte = b: int | 0 <= b < 256
  type Word = w: int | 0 <= w < 0x1_0000_0000
  type Bytes = seq<Byte>
  type Utf8 = Bytes -> bool

  const MAX_BONES := 100000
  const LMEX: Bytes := [0x4C, 0x4D, 0x45, 0x58]
  const ANIM: Bytes := [0x41, 0x4E, 0x49, 0x4D]

  datatype Bone = Bone(name: Bytes, x: Word, y: Word, z: Word, qw: Word, qx: Word, qy: Word, qz: Word)

  datatype Anim = Anim(normalizedTime: Word, layerIndex: int, clipName: Bytes, poseKey: Bytes)

  datatype Trailer = Trailer(
    extVersion: nat, frameId: nat, chunkIndex: int, chunkCount: int,
    totalBoneCount: int, characterId: int, anim: Option<Anim>)

  datatype Packet = Packet(
    modelName: Bytes, timestampMs: int, schema: Bytes, bones: seq<Bone>, trailer: Option<Trailer>)

  // ---------------------------------------------------------------------------------------
  // Little-endian numbers
  // ---------------------------------------------------------------------------------------

  function Pow256(k: nat): (p: nat)
    ensures p > 0
  {
    if k == 0 then 1 else 256 * Pow256(k - 1)
  }

  function LittleEndian(n: nat, k: nat): (s: Bytes)
    ensures |s| == k
  {
    if k == 0 then [] else [n % 256] + LittleEndian(n / 256, k - 1)
  }

  /** The least significant byte stands first. */
  lemma {:induction false} ByteOfNumber(n: nat, k: nat, i: nat)
    requires i < k
    ensures LittleEndian(n, k)[i] == n / Pow256(i) % 256
  {
    if i > 0 {
      ByteOfNumber(n / 256, k - 1, i - 1);
      DivideTwice(n, Pow256(i - 1));
    }
  }

  lemma DivideTwice(n: nat, m: nat)
    requires m > 0
    ensures n / 256 / m == n / (256 * m)
  {
    var q, r := n / 256, n % 256;
    var a, b := q / m, q % m;
    assert n == 256 * (a * m + b) + r && 256 * b + r < 256 * m;
    assert n == a * (256 * m) + (256 * b + r);
    QuotientIs(n, 256 * m, a, 256 * b + r);
  }

  lemma QuotientIs(n: nat, d: nat, q: nat, r: nat)
    requires d > 0 && r < d && n == q * d + r
    ensures n / d == q
  {
    var e: int := n / d - q;
    assert e * d == r - n % d;
    assert e >= 1 ==> e * d >= d;
    assert e <= -1 ==> e * d <= -1 * d;
  }

  function Unsigned(s: Bytes): (n: nat)
    ensures n < Pow256(|s|)
  {
    if s == [] then 0 else s[0] + 256 * Unsigned(s[1..])
  }

  function Signed(s: Bytes): int
    requires |s| == 4
  {
    var n := Unsigned(s);
    if n >= 0x8000_0000 then n - 0x1_0000_0000 else n
  }

  lemma {:induction false} UnsignedOfLittleEndian(n: nat, k: nat)
    requires n < Pow256(k)
    ensures Unsigned(LittleEndian(n, k)) == n
  {
    if k > 0 {
      UnsignedOfLittleEndian(n / 256, k - 1);
      assert LittleEndian(n, k)[1..] == LittleEndian(n / 256, k - 1);
    }
  }

  lemma Widths()
    ensures Pow256(2) == 0x1_0000 && Pow256(4) == 0x1_0000_0000 && Pow256(8) == 0x1_0000_0000_0000_0000
  {
    assert Pow256(1) == 256 && Pow256(2) == 256 * 256 && Pow256(3) == 256 * 256 * 256;
    assert Pow256(5) == 256 * Pow256(4) && Pow256(6) == 256 * Pow256(5) && Pow256(7) == 256 * Pow256(6);
  }

  // ---------------------------------------------------------------------------------------
  // Encoding
  // ---------------------------------------------------------------------------------------

  function Padding(length: nat): (pad: nat)
    ensures pad < 4 && (length + pad) % 4 == 0
  {
    (4 - length % 4) % 4
  }

  function Zeros(n: nat): Bytes {
    seq(n, _ => 0)
  }

  function PackString(value: Bytes): Bytes {
    value + [0] + Zeros(Padding(|value| + 1))
  }

  function PackBone(b: Bone): Bytes {
    PackString(b.name) + PackPose(b)
  }

  function PackPose(b: Bone): (s: Bytes)
    ensures |s| == 28
  {
    LittleEndian(b.x, 4) + LittleEndian(b.y, 4) + LittleEndian(b.z, 4)
    + LittleEndian(b.qw, 4) + LittleEndian(b.qx, 4) + LittleEndian(b.qy, 4) + LittleEndian(b.qz, 4)
  }

  function PackBones(bones: seq<Bone>): Bytes {
    if bones == [] then [] else PackBone(bones[0]) + PackBones(bones[1..])
  }

  function PackHeader(p: Packet): Bytes
    requires 0 <= p.timestampMs
  {
    PackString(p.modelName) + LittleEndian(p.timestampMs, 8) + PackString(p.schema) + LittleEndian(|p.bones|, 4)
  }

  /** What fits the integer fields; the encoder raises an error on anything else. */
  predicate Packable(p: Packet) {
    0 <= p.timestampMs < 0x1_0000_0000_0000_0000 && |p.bones| < 0x8000_0000
  }

  function Built(p: Packet): Bytes
    requires Packable(p)
  {
    PackHeader(p) + PackBones(p.bones)
  }

  lemma PackedString(value: Bytes)
    ensures var s := PackString(value);
            && |value| < |s| <= |value| + 4 && |s| % 4 == 0 && s[..|value|] == value
            && forall i :: |value| <= i < |s| ==> s[i] == 0
  {
  }

  /** The seven fields of a pose, four bytes each. */
  lemma PackedPose(b: Bone, i: nat)
    requires i < 28
    ensures PackPose(b)[i] == [b.x, b.y, b.z, b.qw, b.qx, b.qy, b.qz][i / 4] / Pow256(i % 4) % 256
  {
    var fields := [b.x, b.y, b.z, b.qw, b.qx, b.qy, b.qz];
    ByteOfNumber(fields[i / 4], 4, i % 4);
    hide LittleEndian, Pow256;
  }

  /** Where everything in front of the bones stands. */
  lemma PackedHeader(p: Packet, i: nat)
    requires Packable(p)
    ensures var m, s := |PackString(p.modelName)|, |PackString(p.schema)|;
            && m + 8 + s + 4 <= |Built(p)|
            && Built(p)[..m] == PackString(p.modelName) && Built(p)[m + 8..m + 8 + s] == PackString(p.schema)
            && (i < 8 ==> Built(p)[m + i] == p.timestampMs / Pow256(i) % 256)
            && (i < 4 ==> Built(p)[m + 8 + s + i] == |p.bones| / Pow256(i) % 256)
            && Built(p)[m + 8 + s + 4..] == PackBones(p.bones)
  {
    if i < 8 {
      ByteOfNumber(p.timestampMs, 8, i);
    }
    if i < 4 {
      ByteOfNumber(|p.bones|, 4, i);
    }
    hide LittleEndian, Pow256, PackString, PackBones;
  }

  /** Behind a name comes its pose, and behind a bone the next one. */
  lemma {:induction false} PackedBones(before: seq<Bone>, after: seq<Bone>)
    ensures PackBones(before + after) == PackBones(before) + PackBones(after)
    ensures before != [] ==>
              PackBones(before) == PackString(before[0].name) + PackPose(before[0]) + PackBones(before[1..])
  {
    hide PackString, PackPose;
    if before == [] {
      assert before + after == after;
    } else {
      PackedBones(before[1..], after);
      assert (before + after)[1..] == before[1..] + after;
      assert (before + after)[0] == before[0];
    }
  }

  // ---------------------------------------------------------------------------------------
  // Decoding
  // ---------------------------------------------------------------------------------------

  datatype Header = Header(modelName: Bytes, timestampMs: nat, schema: Bytes, boneCount: nat)

  datatype Cursor<T> = Cursor(value: T, next: nat)

  function FindNul(data: Bytes, offset: nat): (at: Option<nat>)
    ensures at.Some? ==> offset <= at.value < |data| && data[at.value] == 0 && 0 !in data[offset..at.value]
    ensures at.None? && offset <= |data| ==> 0 !in data[offset..]
    decreases |data| - offset
  {
    if offset >= |data| then None
    else if data[offset] == 0 then Some(offset)
    else FindNul(data, offset + 1)
  }

  function ReadString(utf8: Utf8, data: Bytes, offset: nat): Option<Cursor<Bytes>> {
    var end := FindNul(data, offset);
    if end.None? then None
    else
      var value := data[offset..end.value];
      if !utf8(value) then None else Some(Cursor(value, end.value + 1 + Padding(end.value + 1)))
  }

  function WordAt(data: Bytes, offset: nat): Word
    requires offset + 4 <= |data|
  {
    Widths();
    Unsigned(data[offset..offset + 4])
  }

  function SignedAt(data: Bytes, offset: nat): int
    requires offset + 4 <= |data|
  {
    Signed(data[offset..offset + 4])
  }

  function PoseAt(data: Bytes, name: Bytes, offset: nat): Bone
    requires offset + 28 <= |data|
  {
    Bone(name, WordAt(data, offset), WordAt(data, offset + 4), WordAt(data, offset + 8), WordAt(data, offset + 12),
         WordAt(data, offset + 16), WordAt(data, offset + 20), WordAt(data, offset + 24))
  }

  function ReadBone(utf8: Utf8, data: Bytes, offset: nat): Option<Cursor<Bone>> {
    var name := ReadString(utf8, data, offset);
    if name.None? || name.value.next + 28 > |data| then None
    else Some(Cursor(PoseAt(data, name.value.value, name.value.next), name.value.next + 28))
  }

  function ReadBones(utf8: Utf8, data: Bytes, offset: nat, count: nat): Option<Cursor<seq<Bone>>>
    decreases count
  {
    if count == 0 then Some(Cursor([], offset))
    else
      var first := ReadBone(utf8, data, offset);
      if first.None? then None
      else
        var rest := ReadBones(utf8, data, first.value.next, count - 1);
        if rest.None? then None else Some(Cursor([first.value.value] + rest.value.value, rest.value.next))
  }

  /** Everything before the bones, and how many bones follow. */
  function ReadHeader(utf8: Utf8, data: Bytes): Option<Cursor<Header>> {
    var model := ReadString(utf8, data, 0);
    if model.None? || model.value.next + 8 > |data| then None
    else
      var timestamp := Unsigned(data[model.value.next..model.value.next + 8]);
      var schema := ReadString(utf8, data, model.value.next + 8);
      if schema.None? || schema.value.next + 4 > |data| then None
      else
        var count := SignedAt(data, schema.value.next);
        if count < 0 || count > MAX_BONES then None
        else Some(Cursor(Header(model.value.value, timestamp, schema.value.value, count), schema.value.next + 4))
  }

  /** An animation block whose strings cannot be read fails the whole packet. */
  function ReadAnim(utf8: Utf8, data: Bytes, offset: nat): Result<Option<Anim>, ()> {
    if !(offset + 12 <= |data| && data[offset..offset + 4] == ANIM) then Ok(None)
    else
      var clip := ReadString(utf8, data, offset + 12);
      if clip.None? then Err(())
      else
        var pose := ReadString(utf8, data, clip.value.next);
        if pose.None? then Err(())
        else Ok(Some(Anim(WordAt(data, offset + 4), SignedAt(data, offset + 8), clip.value.value, pose.value.value)))
  }

  function ReadTrailer(utf8: Utf8, data: Bytes, offset: nat): Result<Option<Trailer>, ()> {
    if !(offset + 30 <= |data| && data[offset..offset + 4] == LMEX) then Ok(None)
    else
      var anim := ReadAnim(utf8, data, offset + 30);
      if anim.Err? then Err(())
      else Ok(Some(Trailer(Unsigned(data[offset + 4..offset + 6]), Unsigned(data[offset + 6..offset + 14]),
                           SignedAt(data, offset + 14), SignedAt(data, offset + 18),
                           SignedAt(data, offset + 22), SignedAt(data, offset + 26), anim.value)))
  }

  function Decoded(utf8: Utf8, data: Bytes): Option<Packet> {
    var header := ReadHeader(utf8, data);
    if header.None? then None
    else
      var h := header.value.value;
      var bones := ReadBones(utf8, data, header.value.next, h.boneCount);
      if bones.None? then None
      else
        var trailer := ReadTrailer(utf8, data, bones.value.next);
        if trailer.Err? then None
        else Some(Packet(h.modelName, h.timestampMs, h.schema, bones.value.value, trailer.value))
  }

  // ---------------------------------------------------------------------------------------
  // Built packets decode to themselves
  // ---------------------------------------------------------------------------------------

  ghost predicate Readable(utf8: Utf8, s: Bytes) {
    0 !in s && utf8(s)
  }

  /** These bytes stand in the data at that offset. */
  ghost predicate At(data: Bytes, offset: nat, s: Bytes) {
    offset + |s| <= |data| && data[offset..offset + |s|] == s
  }

  lemma AtSplit(data: Bytes, offset: nat, s: Bytes, t: Bytes)
    requires At(data, offset, s + t)
    ensures At(data, offset, s) && At(data, offset + |s|, t)
  {
    var both := data[offset..offset + |s| + |t|];
    assert both[..|s|] == s && both[|s|..] == t;
  }

  lemma FindNulAfter(data: Bytes, offset: nat, value: Bytes, k: nat)
    requires 0 !in value && k <= |value| && At(data, offset, value) && At(data, offset + |value|, [0])
    ensures FindNul(data, offset + k) == Some(offset + |value|)
    decreases |value| - k
  {
    var end := offset + |value|;
    if k < |value| {
      assert data[offset + k] == data[offset..end][k] == value[k];
      FindNulAfter(data, offset, value, k + 1);
    } else {
      assert data[end] == data[end..end + 1][0] == 0;
    }
  }

  /** At an aligned offset, relative and absolute padding are the same. */
  lemma PaddingAligned(offset: nat, length: nat)
    requires offset % 4 == 0
    ensures Padding(offset + length) == Padding(length)
  {
  }

  lemma ReadsPacked(utf8: Utf8, data: Bytes, offset: nat, value: Bytes)
    requires offset % 4 == 0 && Readable(utf8, value) && At(data, offset, PackString(value))
    ensures ReadString(utf8, data, offset) == Some(Cursor(value, offset + |PackString(value)|))
    ensures |PackString(value)| % 4 == 0
  {
    AtSplit(data, offset, value + [0], Zeros(Padding(|value| + 1)));
    AtSplit(data, offset, value, [0]);
    FindNulAfter(data, offset, value, 0);
    assert data[offset..offset + |value|] == value;
    PaddingAligned(offset, |value| + 1);
    hide At, FindNul, Padding;
  }

  lemma NumberReads(data: Bytes, offset: nat, n: nat, k: nat)
    requires At(data, offset, LittleEndian(n, k)) && n < Pow256(k)
    ensures offset + k <= |data| && Unsigned(data[offset..offset + k]) == n
  {
    UnsignedOfLittleEndian(n, k);
  }

  lemma WordReads(data: Bytes, offset: nat, w: Word)
    requires At(data, offset, LittleEndian(w, 4))
    ensures offset + 4 <= |data| && WordAt(data, offset) == w
    ensures w < 0x8000_0000 ==> SignedAt(data, offset) == w
  {
    Widths();
    NumberReads(data, offset, w, 4);
  }

  function SignedBytes(v: int): Bytes
    requires -0x8000_0000 <= v < 0x8000_0000
  {
    LittleEndian(if v < 0 then v + 0x1_0000_0000 else v, 4)
  }

  lemma SignedReads(data: Bytes, offset: nat, v: int)
    requires -0x8000_0000 <= v < 0x8000_0000 && At(data, offset, SignedBytes(v))
    ensures SignedAt(data, offset) == v
  {
    Widths();
    NumberReads(data, offset, if v < 0 then v + 0x1_0000_0000 else v, 4);
    hide LittleEndian;
  }

  ghost predicate Fits32(v: int) {
    -0x8000_0000 <= v < 0x8000_0000
  }

  /** A trailer: its tag, a 16 and a 64 bit number, four signed 32 bit numbers, and perhaps an animation block. */
  lemma TrailerReads(utf8: Utf8, data: Bytes, at: nat, t: Trailer)
    requires t.extVersion < 0x1_0000 && t.frameId < 0x1_0000_0000_0000_0000
    requires ReadAnim(utf8, data, at + 30) == Ok(t.anim)
    requires Fits32(t.chunkIndex) && Fits32(t.chunkCount) && Fits32(t.totalBoneCount) && Fits32(t.characterId)
    requires At(data, at, [0x4C, 0x4D, 0x45, 0x58]) && At(data, at + 4, LittleEndian(t.extVersion, 2))
    requires At(data, at + 6, LittleEndian(t.frameId, 8)) && At(data, at + 14, SignedBytes(t.chunkIndex))
    requires At(data, at + 18, SignedBytes(t.chunkCount)) && At(data, at + 22, SignedBytes(t.totalBoneCount))
    requires At(data, at + 26, SignedBytes(t.characterId))
    ensures ReadTrailer(utf8, data, at) == Ok(Some(t))
  {
    Widths();
    NumberReads(data, at + 4, t.extVersion, 2);
    NumberReads(data, at + 6, t.frameId, 8);
    SignedReads(data, at + 14, t.chunkIndex);
    SignedReads(data, at + 18, t.chunkCount);
    SignedReads(data, at + 22, t.totalBoneCount);
    SignedReads(data, at + 26, t.characterId);
    hide LittleEndian, Pow256, SignedAt, SignedBytes, ReadAnim;
  }

  /** Without its tag, or with fewer than twelve bytes left, there is no animation block. */
  lemma NoAnimIff(utf8: Utf8, data: Bytes, at: nat)
    ensures ReadAnim(utf8, data, at) == Ok(None) <==>
            |data| < at + 12 || data[at..at + 4] != [0x41, 0x4E, 0x49, 0x4D]
  {
    hide ReadString;
  }

  /** A string that ends with a NUL, read at any offset: the next field is at the next multiple of four. */
  lemma TerminatedReads(utf8: Utf8, data: Bytes, offset: nat, value: Bytes)
    requires Readable(utf8, value) && At(data, offset, value + [0])
    ensures var read := ReadString(utf8, data, offset);
            && read.Some? && read.value.value == value && read.value.next % 4 == 0
            && offset + |value| < read.value.next <= offset + |value| + 4
  {
    AtSplit(data, offset, value, [0]);
    FindNulAfter(data, offset, value, 0);
    assert data[offset..offset + |value|] == value;
    hide FindNul, At;
  }

  lemma NextMultiple(x: nat, a: nat, b: nat)
    requires x < a <= x + 4 && a % 4 == 0 && x < b <= x + 4 && b % 4 == 0
    ensures a == b
  {
  }

  /** An animation block: its tag, a float, a signed 32 bit number, and two strings padded by absolute offset. */
  lemma AnimReads(utf8: Utf8, data: Bytes, at: nat, a: Anim, behind: nat)
    requires Fits32(a.layerIndex) && Readable(utf8, a.clipName) && Readable(utf8, a.poseKey)
    requires At(data, at, ANIM) && At(data, at + 4, LittleEndian(a.normalizedTime, 4))
    requires At(data, at + 8, SignedBytes(a.layerIndex)) && At(data, at + 12, a.clipName + [0])
    requires at + 12 + |a.clipName| < behind <= at + 12 + |a.clipName| + 4 && behind % 4 == 0
    requires At(data, behind, a.poseKey + [0])
    ensures ANIM == [0x41, 0x4E, 0x49, 0x4D] && ReadAnim(utf8, data, at) == Ok(Some(a))
  {
    WordReads(data, at + 4, a.normalizedTime);
    SignedReads(data, at + 8, a.layerIndex);
    TerminatedReads(utf8, data, at + 12, a.clipName);
    TerminatedReads(utf8, data, behind, a.poseKey);
    hide LittleEndian, SignedAt, WordAt, SignedBytes, ReadString, Readable;
    var clip := ReadString(utf8, data, at + 12);
    NextMultiple(at + 12 + |a.clipName|, behind, clip.value.next);
    assert data[at..at + 4] == ANIM;
    hide At;
  }

  lemma PoseReads(data: Bytes, offset: nat, b: Bone)
    requires At(data, offset, PackPose(b))
    ensures offset + 28 <= |data| && PoseAt(data, b.name, offset) == b
  {
    var x, y, z := LittleEndian(b.x, 4), LittleEndian(b.y, 4), LittleEndian(b.z, 4);
    var qw, qx, qy, qz := LittleEndian(b.qw, 4), LittleEndian(b.qx, 4), LittleEndian(b.qy, 4), LittleEndian(b.qz, 4);
    hide LittleEndian, At, WordAt;
    AtSplit(data, offset, x + y + z + qw + qx + qy, qz);
    AtSplit(data, offset, x + y + z + qw + qx, qy);
    AtSplit(data, offset, x + y + z + qw, qx);
    AtSplit(data, offset, x + y + z, qw);
    AtSplit(data, offset, x + y, z);
    AtSplit(data, offset, x, y);
    WordReads(data, offset, b.x);
    WordReads(data, offset + 4, b.y);
    WordReads(data, offset + 8, b.z);
    WordReads(data, offset + 12, b.qw);
    WordReads(data, offset + 16, b.qx);
    WordReads(data, offset + 20, b.qy);
    WordReads(data, offset + 24, b.qz);
  }

  lemma BoneReads(utf8: Utf8, data: Bytes, offset: nat, b: Bone)
    requires offset % 4 == 0 && Readable(utf8, b.name) && At(data, offset, PackBone(b))
    ensures ReadBone(utf8, data, offset) == Some(Cursor(b, offset + |PackBone(b)|))
    ensures |PackBone(b)| % 4 == 0
  {
    hide At, Readable, PackString, PackPose, ReadString, PoseAt;
    AtSplit(data, offset, PackString(b.name), PackPose(b));
    ReadsPacked(utf8, data, offset, b.name);
    PoseReads(data, offset + |PackString(b.name)|, b);
  }

  lemma {:induction false} BonesRead(utf8: Utf8, data: Bytes, offset: nat, bones: seq<Bone>)
    requires offset % 4 == 0 && forall i :: 0 <= i < |bones| ==> Readable(utf8, bones[i].name)
    requires At(data, offset, PackBones(bones))
    ensures ReadBones(utf8, data, offset, |bones|) == Some(Cursor(bones, offset + |PackBones(bones)|))
    decreases |bones|
  {
    hide At, Readable, PackBone, ReadBone;
    if bones == [] {
      assert PackBones(bones) == [] && |bones| == 0;
    } else {
      var first, rest := bones[0], bones[1..];
      assert [first] + rest == bones;
      AtSplit(data, offset, PackBone(first), PackBones(rest));
      BoneReads(utf8, data, offset, first);
      var next := offset + |PackBone(first)|;
      BonesRead(utf8, data, next, rest);
      assert |bones| - 1 == |rest|;
      var end := next + |PackBones(rest)|;
      assert end == offset + |PackBones(bones)|;
      hide PackBones;
      assert ReadBones(utf8, data, offset, |bones|) == Some(Cursor([first] + rest, end));
    }
  }

  /** The packet's strings hold no NUL and its bones are not too many for the decoder. */
  ghost predicate Sendable(utf8: Utf8, p: Packet) {
    && Readable(utf8, p.modelName) && Readable(utf8, p.schema)
    && (forall i :: 0 <= i < |p.bones| ==> Readable(utf8, p.bones[i].name))
    && |p.bones| <= 100000
  }

  lemma HeaderReads(utf8: Utf8, data: Bytes, p: Packet)
    requires Packable(p) && Sendable(utf8, p) && At(data, 0, PackHeader(p))
    ensures ReadHeader(utf8, data) ==
            Some(Cursor(Header(p.modelName, p.timestampMs, p.schema, |p.bones|), |PackHeader(p)|))
    ensures |PackHeader(p)| % 4 == 0
  {
    Widths();
    hide At, Readable, LittleEndian, PackString, ReadString, Unsigned, Signed, SignedAt, Pow256;
    var model, timestamp := PackString(p.modelName), LittleEndian(p.timestampMs, 8);
    var schema, count := PackString(p.schema), LittleEndian(|p.bones|, 4);
    AtSplit(data, 0, model + timestamp + schema, count);
    AtSplit(data, 0, model + timestamp, schema);
    AtSplit(data, 0, model, timestamp);
    ReadsPacked(utf8, data, 0, p.modelName);
    ReadsPacked(utf8, data, |model| + 8, p.schema);
    NumberReads(data, |model|, p.timestampMs, 8);
    WordReads(data, |model| + 8 + |schema|, |p.bones|);
  }

  /** A built packet decodes to exactly what it was built from, with no trailer. */
  lemma BuiltDecodes(utf8: Utf8, p: Packet)
    requires Packable(p) && Sendable(utf8, p)
    ensures Decoded(utf8, Built(p)) == Some(p.(trailer := None))
  {
    var data := Built(p);
    assert At(data, 0, PackHeader(p) + PackBones(p.bones));
    AtSplit(data, 0, PackHeader(p), PackBones(p.bones));
    HeaderReads(utf8, data, p);
    BonesRead(utf8, data, |PackHeader(p)|, p.bones);
  }

  // ---------------------------------------------------------------------------------------
  // Whatever decodes can be rebuilt
  // ---------------------------------------------------------------------------------------

  lemma StringRead(utf8: Utf8, data: Bytes, offset: nat)
    requires offset % 4 == 0 && ReadString(utf8, data, offset).Some?
    ensures var c := ReadString(utf8, data, offset).value;
            Readable(utf8, c.value) && c.next == offset + |PackString(c.value)| && c.next % 4 == 0
            && |PackString(c.value)| >= 4
  {
    var end := FindNul(data, offset).value;
    assert Padding(end + 1) == Padding(end - offset + 1);
  }

  lemma BoneRead(utf8: Utf8, data: Bytes, offset: nat)
    requires offset % 4 == 0 && ReadBone(utf8, data, offset).Some?
    ensures var c := ReadBone(utf8, data, offset).value;
            && Readable(utf8, c.value.name) && c.next == offset + |PackBone(c.value)| && c.next % 4 == 0
            && |PackBone(c.value)| >= 32 && c.next <= |data|
  {
    StringRead(utf8, data, offset);
    hide PackString, ReadString;
  }

  lemma {:induction false} BonesAreRead(utf8: Utf8, data: Bytes, offset: nat, count: nat)
    requires offset % 4 == 0 && offset <= |data| && ReadBones(utf8, data, offset, count).Some?
    ensures var c := ReadBones(utf8, data, offset, count).value;
            && |c.value| == count && (forall i :: 0 <= i < count ==> Readable(utf8, c.value[i].name))
            && c.next == offset + |PackBones(c.value)| && |PackBones(c.value)| >= 32 * count && c.next <= |data|
    decreases count
  {
    hide Readable, ReadBone, PackBone;
    if count > 0 {
      BoneRead(utf8, data, offset);
      var first := ReadBone(utf8, data, offset).value;
      BonesAreRead(utf8, data, first.next, count - 1);
      var c := ReadBones(utf8, data, offset, count).value;
      assert c.value[0] == first.value && c.value[1..] == ReadBones(utf8, data, first.next, count - 1).value.value;
    }
  }

  lemma HeaderIsRead(utf8: Utf8, data: Bytes, p: Packet)
    requires ReadHeader(utf8, data).Some? && 0 <= p.timestampMs
    requires ReadHeader(utf8, data).value.value == Header(p.modelName, p.timestampMs, p.schema, |p.bones|)
    ensures Packable(p) && Readable(utf8, p.modelName) && Readable(utf8, p.schema) && |p.bones| <= MAX_BONES
    ensures ReadHeader(utf8, data).value.next == |PackHeader(p)| >= 20
    ensures |PackHeader(p)| <= |data| && |PackHeader(p)| % 4 == 0
  {
    hide PackString, ReadString, Readable, SignedAt, LittleEndian;
    var model := ReadString(utf8, data, 0).value;
    StringRead(utf8, data, 0);
    StringRead(utf8, data, model.next + 8);
    assert Unsigned(data[model.next..model.next + 8]) < 0x1_0000_0000_0000_0000 by {
      Widths();
    }
  }

  /**
   * Whatever bytes decode hold at least the fixed fields of every bone, and encoding the result
   * again gives no more bytes, which decode to the same packet without its trailer.
   */
  lemma DecodedRebuilds(utf8: Utf8, data: Bytes)
    requires Decoded(utf8, data).Some?
    ensures var p := Decoded(utf8, data).value;
            && Packable(p) && Sendable(utf8, p) && 20 + 32 * |p.bones| <= |data|
            && |Built(p)| <= |data| && Decoded(utf8, Built(p)) == Some(p.(trailer := None))
  {
    var p := Decoded(utf8, data).value;
    var start, count := ReadHeader(utf8, data).value.next, ReadHeader(utf8, data).value.value.boneCount;
    assert ReadBones(utf8, data, start, count).value.value == p.bones;
    hide ReadHeader, ReadTrailer;
    HeaderStart(utf8, data);
    BonesAreRead(utf8, data, start, count);
    HeaderIsRead(utf8, data, p);
    BuiltDecodes(utf8, p);
  }

  lemma HeaderStart(utf8: Utf8, data: Bytes)
    requires ReadHeader(utf8, data).Some?
    ensures ReadHeader(utf8, data).value.next % 4 == 0 && ReadHeader(utf8, data).value.next <= |data|
  {
    hide PackString, ReadString, Readable, SignedAt, Unsigned;
    StringRead(utf8, data, 0);
    StringRead(utf8, data, ReadString(utf8, data, 0).value.next + 8);
  }

  /** So a packet survives the trip exactly when its strings and its bone count allow it. */
  lemma SurvivesIffSendable(utf8: Utf8, p: Packet)
    requires Packable(p)
    ensures Decoded(utf8, Built(p)) == Some(p) <==> Sendable(utf8, p) && p.trailer.None?
  {
    hide Decoded, Built, Packable;
    if Sendable(utf8, p) {
      BuiltDecodes(utf8, p);
    }
    if Decoded(utf8, Built(p)) == Some(p) {
      DecodedRebuilds(utf8, Built(p));
    }
  }

  // ---------------------------------------------------------------------------------------
  // The programs
  // ---------------------------------------------------------------------------------------

  lemma PackBonesAppends(bones: seq<Bone>, b: Bone)
    ensures PackBones(bones + [b]) == PackBones(bones) + PackBone(b)
  {
    if bones != [] {
      assert (bones + [b])[1..] == bones[1..] + [b];
      PackBonesAppends(bones[1..], b);
    } else {
      assert bones + [b] == [b];
    }
  }

  /** `bones` carry the poses the stub has computed; numbers that do not fit their fields are an error. */
  method BuildSkeletonPacket(modelName: Bytes, timestampMs: int, schema: Bytes, bones: seq<Bone>)
    returns (packet: Option<Bytes>)
    ensures var p := Packet(modelName, timestampMs, schema, bones, None);
            packet == if Packable(p) then Some(Built(p)) else None
    ensures packet.Some? <==> 0 <= timestampMs < 18446744073709551616 && |bones| < 2147483648
  {
    var out := PackString(modelName);
    if !(0 <= timestampMs < 0x1_0000_0000_0000_0000) {
      return None;
    }
    out := out + LittleEndian(timestampMs, 8);
    out := out + PackString(schema);
    if |bones| >= 0x8000_0000 {
      return None;
    }
    out := out + LittleEndian(|bones|, 4);
    ghost var header := out;
    for i := 0 to |bones|
      invariant out == header + PackBones(bones[..i])
    {
      var b := bones[i];
      assert bones[..i + 1] == bones[..i] + [b];
      PackBonesAppends(bones[..i], b);
      out := out + PackString(b.name);
      out := out + PackPose(b);
    }
    assert bones[..|bones|] == bones;
    return Some(out);
  }

  /** What reading gives when these bones have been read already. */
  function Behind(bones: seq<Bone>, rest: Option<Cursor<seq<Bone>>>): Option<Cursor<seq<Bone>>> {
    if rest.None? then None else Some(Cursor(bones + rest.value.value, rest.value.next))
  }

  lemma BehindNothing(rest: Option<Cursor<seq<Bone>>>)
    ensures Behind([], rest) == rest
  {
    if rest.Some? {
      assert [] + rest.value.value == rest.value.value;
    }
  }

  lemma BehindOneMore(utf8: Utf8, data: Bytes, offset: nat, count: nat, bones: seq<Bone>)
    requires count > 0
    ensures Behind(bones, ReadBones(utf8, data, offset, count)) ==
            var first := ReadBone(utf8, data, offset);
            if first.None? then None
            else Behind(bones + [first.value.value], ReadBones(utf8, data, first.value.next, count - 1))
  {
    hide ReadBone;
    var first := ReadBone(utf8, data, offset);
    if first.Some? {
      var rest := ReadBones(utf8, data, first.value.next, count - 1);
      if rest.Some? {
        assert bones + ([first.value.value] + rest.value.value) == bones + [first.value.value] + rest.value.value;
      }
    }
  }

  lemma AllBehind(utf8: Utf8, data: Bytes, offset: nat, bones: seq<Bone>)
    ensures Behind(bones, ReadBones(utf8, data, offset, 0)) == Some(Cursor(bones, offset))
  {
    assert bones + [] == bones;
  }

  method DecodeSkeletonPacket(utf8: Utf8, data: Bytes) returns (packet: Option<Packet>)
    ensures packet == Decoded(utf8, data)
  {
    hide ReadString, Unsigned, SignedAt, WordAt, PoseAt, ReadBones, ReadTrailer, Behind;
    var model := ReadString(utf8, data, 0);
    if model.None? || model.value.next + 8 > |data| {
      return None;
    }
    var offset: nat := model.value.next;
    var timestampMs := Unsigned(data[offset..offset + 8]);
    offset := offset + 8;
    var schema := ReadString(utf8, data, offset);
    if schema.None? || schema.value.next + 4 > |data| {
      return None;
    }
    offset := schema.value.next;
    var boneCount := SignedAt(data, offset);
    offset := offset + 4;
    if boneCount < 0 || boneCount > MAX_BONES {
      return None;
    }
    ghost var header := Header(model.value.value, timestampMs, schema.value.value, boneCount);
    assert ReadHeader(utf8, data) == Some(Cursor(header, offset));
    var bones: seq<Bone> := [];
    ghost var start := offset;
    hide ReadHeader;
    BehindNothing(ReadBones(utf8, data, start, boneCount));
    for i := 0 to boneCount
      invariant ReadBones(utf8, data, start, boneCount) ==
                Behind(bones, ReadBones(utf8, data, offset, boneCount - i))
    {
      BehindOneMore(utf8, data, offset, boneCount - i, bones);
      var name := ReadString(utf8, data, offset);
      if name.None? || name.value.next + 28 > |data| {
        return None;
      }
      bones := bones + [PoseAt(data, name.value.value, name.value.next)];
      offset := name.value.next + 28;
    }
    assert ReadBones(utf8, data, start, boneCount) == Some(Cursor(bones, offset)) by {
      AllBehind(utf8, data, offset, bones);
    }
    var trailer := ReadTrailer(utf8, data, offset);
    if trailer.Err? {
      return None;
    }
    return Some(Packet(model.value.value, timestampMs, schema.value.value, bones, trailer.value));
  }
}
