// The digest of the complex handshake (pkg/rtmp/handshake_server.go) finds its
// own place: its offset is computed from bytes of the block it is stamped into.
// HMAC-SHA256 is any function from a key and a text to 32 bytes.
module Handshake {
  import opened Bytes
  import opened Options

  const BLOCK := 1536
  const DIGEST := 32

  type Digest = s: seq<byte> | |s| == DIGEST witness seq(32, _ => 0)
  type Hmac = (seq<byte>, seq<byte>) -> Digest
  type Block = s: seq<byte> | |s| == BLOCK witness seq(1536, _ => 0)

  // ------------------------------------------------------------- on values

  function Sum4(p: seq<byte>, base: nat): nat
    requires base + 4 <= |p|
  {
    p[base] as nat + p[base + 1] as nat + p[base + 2] as nat + p[base + 3] as nat
  }

  function CalcDigestPos(p: Block, base: nat): (pos: nat)
    requires base <= 772
    ensures base + 4 <= pos <= base + 731
  {
    Sum4(p, base) % 728 + base + 4
  }

  function MakeDigest(hmac: Hmac, key: seq<byte>, src: seq<byte>, gap: int): Digest
    requires gap + DIGEST <= |src|
  {
    if gap <= 0 then hmac(key, src) else hmac(key, src[..gap] + src[gap + DIGEST..])
  }

  // The digest's place, or None where the code returns -1.
  function FindDigest(hmac: Hmac, p: Block, key: seq<byte>, base: nat): (gap: Option<nat>)
    requires base <= 772
    ensures gap.Some? ==> gap.value + DIGEST <= BLOCK
  {
    var gap := CalcDigestPos(p, base);
    if p[gap..gap + DIGEST] == MakeDigest(hmac, key, p, gap) then Some(gap) else None
  }

  function ParseC1(hmac: Hmac, p: Block, peerKey: seq<byte>, key: seq<byte>): Option<Digest> {
    var at := FindDigest(hmac, p, peerKey, 772);
    var pos := if at.Some? then at else FindDigest(hmac, p, peerKey, 8);
    if pos.None? then None
    else Some(MakeDigest(hmac, key, p[pos.value..pos.value + DIGEST], -1))
  }

  function Put(p: seq<byte>, at: nat, d: Digest): (r: seq<byte>)
    requires at + DIGEST <= |p|
    ensures |r| == |p|
  {
    p[..at] + d + p[at + DIGEST..]
  }

  // A block with its digest stamped in at the place its own bytes give.
  function Stamp(hmac: Hmac, p: Block, key: seq<byte>, base: nat): (r: Block)
    requires base <= 772
  {
    var gap := CalcDigestPos(p, base);
    Put(p, gap, MakeDigest(hmac, key, p, gap))
  }

  function S1(hmac: Hmac, time: uint32, ver: uint32, random: seq<byte>, key: seq<byte>): Block
    requires |random| == BLOCK - 8
  {
    Stamp(hmac, ToBE(time, 4) + ToBE(ver, 4) + random, key, 8)
  }

  function S2(hmac: Hmac, random: Block, key: seq<byte>): Block {
    Put(random, BLOCK - DIGEST, MakeDigest(hmac, key, random, BLOCK - DIGEST))
  }

  datatype Keys = Keys(clientPartial: seq<byte>, serverPartial: seq<byte>, serverFull: seq<byte>)

  const SERVER_VERSION: uint32 := 0x0d0e0a0d

  // The server's answer to C0 and C1: S0, S1 and S2, or a refusal.  A client of
  // version 0 gets a block of zeros and its own block back.
  function Reply(hmac: Hmac, keys: Keys, c0: byte, c1: Block, random1: seq<byte>, random2: Block)
    : (out: Option<seq<byte>>)
    requires |random1| == BLOCK - 8
    ensures out.Some? ==> |out.value| == 1 + 2 * BLOCK
  {
    if c0 != 3 then None
    else if FromBE(c1[4..8]) == 0 then Some([3] + Zeros(BLOCK) + c1)
    else
      match ParseC1(hmac, c1, keys.clientPartial, keys.serverFull)
      case None => None
      case Some(digest) =>
        Narrow(c1[0..4]);
        Some([3] + S1(hmac, FromBE(c1[0..4]), SERVER_VERSION, random1, keys.serverPartial) + S2(hmac, random2, digest))
  }

  // ------------------------------------------------------ what the stamp keeps

  // Writing 32 bytes at the digest's place leaves the place and the text the
  // digest is taken over as they were.
  lemma PutKeeps(p: Block, base: nat, d: Digest)
    requires base <= 772
    ensures
      var gap := CalcDigestPos(p, base);
      var q := Put(p, gap, d);
      && CalcDigestPos(q, base) == gap
      && q[gap..gap + DIGEST] == d
      && q[..gap] + q[gap + DIGEST..] == p[..gap] + p[gap + DIGEST..]
      && q[..base + 4] == p[..base + 4]
  {
    var gap := CalcDigestPos(p, base);
    var q := Put(p, gap, d);
    assert q[..gap] == p[..gap] && q[gap + DIGEST..] == p[gap + DIGEST..];
    assert q[..base + 4] == q[..gap][..base + 4];
  }

  // Main result: whatever the block, a stamped digest is found again, at the
  // place it was put, and nothing before that place has changed.
  lemma StampIsFound(hmac: Hmac, p: Block, key: seq<byte>, base: nat)
    requires base <= 772
    ensures FindDigest(hmac, Stamp(hmac, p, key, base), key, base) == Some(CalcDigestPos(p, base))
    ensures Stamp(hmac, p, key, base)[..base + 4] == p[..base + 4]
  {
    hide CalcDigestPos, Put;
    var gap := CalcDigestPos(p, base);
    PutKeeps(p, base, MakeDigest(hmac, key, p, gap));
  }

  // The two layouts do not disturb each other: a digest of the first never
  // reaches the offset bytes of the second, so stamping one keeps the place of
  // the other.
  lemma LayoutsApart(p: Block, d: Digest)
    ensures CalcDigestPos(p, 8) + DIGEST <= 772
    ensures CalcDigestPos(Put(p, CalcDigestPos(p, 8), d), 772) == CalcDigestPos(p, 772)
    ensures CalcDigestPos(Put(p, CalcDigestPos(p, 772), d), 8) == CalcDigestPos(p, 8)
  {
  }

  // The place of a digest, from the four bytes that say it: their sum, less as
  // many times 728 as there are in it, counted from behind them.
  lemma PlaceIs(p: Block, base: nat)
    requires base <= 772
    ensures
      var at := CalcDigestPos(p, base);
      var sum := p[base] as nat + p[base + 1] as nat + p[base + 2] as nat + p[base + 3] as nat;
      0 <= at - base - 4 < 728 && (sum - (at - base - 4)) % 728 == 0
  {
  }

  // The 32 bytes at the place that base says are the digest, under key, of the
  // block without them.
  predicate Signed(hmac: Hmac, p: Block, key: seq<byte>, base: nat)
    requires base <= 772
  {
    var at := CalcDigestPos(p, base);
    p[at..at + 32] == hmac(key, p[..at] + p[at + 32..])
  }

  lemma SignedIsFound(hmac: Hmac, p: Block, key: seq<byte>, base: nat)
    requires base <= 772
    ensures FindDigest(hmac, p, key, base) == if Signed(hmac, p, key, base) then Some(CalcDigestPos(p, base)) else None
  {
    hide CalcDigestPos;
  }

  // Main result: C1 is accepted if and only if it is signed in one of the two
  // layouts; the one at 772 goes first, and the answer's key is made from the
  // 32 bytes found.
  lemma AcceptsExactly(hmac: Hmac, c1: Block, peerKey: seq<byte>, key: seq<byte>)
    ensures
      ParseC1(hmac, c1, peerKey, key) ==
        if Signed(hmac, c1, peerKey, 772) then
          Some(hmac(key, c1[CalcDigestPos(c1, 772)..CalcDigestPos(c1, 772) + 32]))
        else if Signed(hmac, c1, peerKey, 8) then
          Some(hmac(key, c1[CalcDigestPos(c1, 8)..CalcDigestPos(c1, 8) + 32]))
        else None
  {
    hide CalcDigestPos, Signed, FindDigest;
    SignedIsFound(hmac, c1, peerKey, 772);
    SignedIsFound(hmac, c1, peerKey, 8);
  }

  // A block stamped in either layout is signed in it, and so accepted.
  lemma StampedIsSigned(hmac: Hmac, p: Block, key: seq<byte>, base: nat)
    requires base <= 772
    ensures Signed(hmac, Stamp(hmac, p, key, base), key, base)
  {
    hide CalcDigestPos, Stamp, FindDigest, Signed;
    StampIsFound(hmac, p, key, base);
    SignedIsFound(hmac, Stamp(hmac, p, key, base), key, base);
  }

  // Stamping changes the 32 bytes at the place only.
  lemma StampLeaves(hmac: Hmac, p: Block, key: seq<byte>, base: nat)
    requires base <= 772
    ensures
      var at, q := CalcDigestPos(p, base), Stamp(hmac, p, key, base);
      CalcDigestPos(q, base) == at && q[..at] == p[..at] && q[at + 32..] == p[at + 32..]
  {
    hide CalcDigestPos, MakeDigest;
    PutKeeps(p, base, MakeDigest(hmac, key, p, CalcDigestPos(p, base)));
    var at, q := CalcDigestPos(p, base), Stamp(hmac, p, key, base);
    assert q[..at] == p[..at] && q[at + 32..] == p[at + 32..];
  }

  // S2 is the random block but for its last 32 bytes, the digest of the rest.
  lemma S2Verifies(hmac: Hmac, random: Block, key: seq<byte>)
    ensures
      var s2 := S2(hmac, random, key);
      s2[..1504] == random[..1504] && s2[1504..] == hmac(key, s2[..1504])
  {
    var s2 := S2(hmac, random, key);
    assert s2[..1504] == random[..1504];
    assert random[..1504] + random[1536..] == random[..1504];
    assert s2[1504..] == MakeDigest(hmac, key, random, 1504);
  }

  // S1 has the time, the version and the random bytes, and is signed in the
  // layout at 8.
  lemma S1Verifies(hmac: Hmac, time: uint32, ver: uint32, random: seq<byte>, key: seq<byte>)
    requires |random| == BLOCK - 8
    ensures
      var s1 := S1(hmac, time, ver, random, key);
      var at := CalcDigestPos(s1, 8);
      && Signed(hmac, s1, key, 8)
      && FromBE(s1[0..4]) == time && FromBE(s1[4..8]) == ver
      && s1[8..at] == random[..at - 8] && s1[at + 32..] == random[at + 24..]
  {
    hide CalcDigestPos, FromBE, ToBE, Signed, Stamp;
    var p := ToBE(time, 4) + ToBE(ver, 4) + random;
    StampedIsSigned(hmac, p, key, 8);
    StampLeaves(hmac, p, key, 8);
    var s1, at := S1(hmac, time, ver, random, key), CalcDigestPos(p, 8);
    assert p[0..4] == ToBE(time, 4);
    assert p[4..8] == ToBE(ver, 4);
    assert s1[0..4] == s1[..at][0..4] == p[..at][0..4] == p[0..4];
    assert s1[4..8] == s1[..at][4..8] == p[..at][4..8] == p[4..8];
    assert s1[8..at] == s1[..at][8..] == p[..at][8..] == random[..at - 8];
    assert p[at + 32..] == random[at + 24..];
    Widths();
    Fits(time, 4);
    Fits(ver, 4);
  }

  // Main result: both sides can check each other.  Any C1 of another version
  // than 0 that is signed is answered.  In the answer S1 echoes the client's
  // time, has the server's version and random bytes, and is signed by the
  // server; and the last 32 bytes of S2 are the digest of the others under a
  // key made from the client's digest.
  lemma HandshakeAgrees(hmac: Hmac, keys: Keys, c1: Block, base: nat, random1: seq<byte>, random2: Block)
    requires |random1| == BLOCK - 8 && FromBE(c1[4..8]) != 0
    requires base == 772 || (base == 8 && !Signed(hmac, c1, keys.clientPartial, 772))
    requires Signed(hmac, c1, keys.clientPartial, base)
    ensures
      var out := Reply(hmac, keys, 3, c1, random1, random2);
      && out.Some? && out.value[0] == 3
      && var s1, s2 := out.value[1..1537], out.value[1537..];
         var at, found := CalcDigestPos(s1, 8), CalcDigestPos(c1, base);
         && Signed(hmac, s1, keys.serverPartial, 8)
         && s1[0..4] == c1[0..4] && s1[4..8] == [0x0d, 0x0e, 0x0a, 0x0d]
         && s1[8..at] == random1[..at - 8] && s1[at + 32..] == random1[at + 24..]
         && s2[..1504] == random2[..1504]
         && s2[1504..] == hmac(hmac(keys.serverFull, c1[found..found + 32]), s2[..1504])
  {
    hide CalcDigestPos, ParseC1, S1, S2, Signed, FromBE, ToBE;
    AcceptsExactly(hmac, c1, keys.clientPartial, keys.serverFull);
    var digest := ParseC1(hmac, c1, keys.clientPartial, keys.serverFull).value;
    Narrow(c1[0..4]);
    var s1 := S1(hmac, FromBE(c1[0..4]), SERVER_VERSION, random1, keys.serverPartial);
    var s2 := S2(hmac, random2, digest);
    S1Verifies(hmac, FromBE(c1[0..4]), SERVER_VERSION, random1, keys.serverPartial);
    S2Verifies(hmac, random2, digest);
    SameBytes(s1[0..4], c1[0..4]);
    VersionBytes(s1[4..8]);
    var out := [3] + s1 + s2;
    assert out[1..1537] == s1 && out[1537..] == s2;
  }

  lemma SameBytes(a: seq<byte>, b: seq<byte>)
    requires |a| == |b| && FromBE(a) == FromBE(b)
    ensures a == b
  {
    BEInverse(a);
    BEInverse(b);
  }

  lemma VersionBytes(b: seq<byte>)
    requires |b| == 4 && FromBE(b) == 0x0d0e0a0d
    ensures b == [0x0d, 0x0e, 0x0a, 0x0d]
  {
    var v: seq<byte> := [0x0d, 0x0e, 0x0a, 0x0d];
    ValueOf(v);
    SameBytes(b, v);
  }

  // The plain handshake, of version 0: S1 is all zeros, the version with it,
  // and S2 is the client's block.
  lemma PlainHandshake(hmac: Hmac, keys: Keys, c1: Block, random1: seq<byte>, random2: Block)
    requires |random1| == BLOCK - 8 && c1[4..8] == [0, 0, 0, 0]
    ensures
      var out := Reply(hmac, keys, 3, c1, random1, random2);
      && out.Some? && |out.value| == 3073 && out.value[0] == 3
      && (forall i :: 1 <= i < 1537 ==> out.value[i] == 0)
      && out.value[1537..] == c1
  {
    ZeroBytes(c1[4..8]);
    assert ([3] + Zeros(BLOCK) + c1)[1537..] == c1;
  }

  lemma ZeroBytes(b: seq<byte>)
    requires |b| == 4
    ensures FromBE(b) == 0 <==> b == [0, 0, 0, 0]
  {
    var z: seq<byte> := [0, 0, 0, 0];
    ValueOf(z);
    if FromBE(b) == 0 {
      SameBytes(b, z);
    }
  }

  // When the server refuses.
  lemma RefusesExactly(hmac: Hmac, keys: Keys, c0: byte, c1: Block, random1: seq<byte>, random2: Block)
    requires |random1| == BLOCK - 8
    ensures
      Reply(hmac, keys, c0, c1, random1, random2) == None <==>
      c0 != 3
      || (c1[4..8] != [0, 0, 0, 0]
          && !Signed(hmac, c1, keys.clientPartial, 772) && !Signed(hmac, c1, keys.clientPartial, 8))
  {
    hide CalcDigestPos, ParseC1, S1, S2, Signed, FromBE;
    ZeroBytes(c1[4..8]);
    AcceptsExactly(hmac, c1, keys.clientPartial, keys.serverFull);
  }

  // --------------------------------------------------------------- in place

  method CalcPos(buf: array<byte>, off: nat, base: nat) returns (pos: nat)
    requires off + BLOCK <= buf.Length && base <= 772
    ensures pos == CalcDigestPos(buf[off..off + BLOCK], base)
  {
    pos := 0;
    ghost var p := buf[off..off + BLOCK];
    for i := 0 to 4
      invariant pos == (if i > 0 then p[base] as nat else 0) + (if i > 1 then p[base + 1] as nat else 0)
                       + (if i > 2 then p[base + 2] as nat else 0) + (if i > 3 then p[base + 3] as nat else 0)
    {
      assert buf[off + base + i] == p[base + i];
      pos := pos + buf[off + base + i];
    }
    pos := pos % 728 + base + 4;
  }

  method CopyInto(buf: array<byte>, at: nat, s: seq<byte>)
    requires at + |s| <= buf.Length
    modifies buf
    ensures buf[..] == old(buf[..at]) + s + old(buf[at + |s|..])
  {
    forall i | 0 <= i < |s| {
      buf[at + i] := s[i];
    }
    assert buf[..] == buf[..at] + buf[at..at + |s|] + buf[at + |s|..];
  }

  // complexHandshakeCreateS0S1 on the block at off.
  method CreateS1(hmac: Hmac, buf: array<byte>, off: nat, time: uint32, ver: uint32, random: seq<byte>, key: seq<byte>)
    requires off + BLOCK <= buf.Length && |random| == BLOCK - 8
    modifies buf
    ensures buf[..] == old(buf[..off]) + S1(hmac, time, ver, random, key) + old(buf[off + BLOCK..])
  {
    hide CalcDigestPos, ToBE, MakeDigest;
    ghost var a, z := buf[..off], buf[off + BLOCK..];
    FillS1(buf, off, time, ver, random);
    ghost var p := ToBE(time, 4) + ToBE(ver, 4) + random;
    assert buf[off..off + BLOCK] == p;
    var gap := CalcPos(buf, off, 8);
    var digest := MakeDigest(hmac, key, buf[off..off + BLOCK], gap);
    CopyInto(buf, off + gap, digest);
    PutInside(a, p, z, gap, digest);
  }

  // The block before its digest is put in.
  method FillS1(buf: array<byte>, off: nat, time: uint32, ver: uint32, random: seq<byte>)
    requires off + BLOCK <= buf.Length && |random| == BLOCK - 8
    modifies buf
    ensures buf[..] == old(buf[..off]) + (ToBE(time, 4) + ToBE(ver, 4) + random) + old(buf[off + BLOCK..])
  {
    hide ToBE;
    ghost var s := buf[..];
    CopyInto(buf, off + 8, random);
    UintAsByteSlice(time, buf, off, 4, true);
    UintAsByteSlice(ver, buf, off + 4, 4, true);
    Spliced(s, off, ToBE(time, 4), ToBE(ver, 4), random);
  }

  lemma Spliced(s: seq<byte>, off: nat, t: seq<byte>, v: seq<byte>, r: seq<byte>)
    requires off + 8 + |r| <= |s| && |t| == |v| == 4
    ensures
      var s1 := s[..off + 8] + r + s[off + 8 + |r|..];
      var s2 := s1[..off] + t + s1[off + 4..];
      s2[..off + 4] + v + s2[off + 8..] == s[..off] + (t + v + r) + s[off + 8 + |r|..]
  {
  }

  lemma PutInside(a: seq<byte>, p: seq<byte>, z: seq<byte>, at: nat, d: Digest)
    requires at + DIGEST <= |p|
    ensures Put(a + p + z, |a| + at, d) == a + Put(p, at, d) + z
  {
  }

  // complexHandshakeCreateS2 on the block at off.
  method CreateS2(hmac: Hmac, buf: array<byte>, off: nat, random: Block, key: seq<byte>)
    requires off + BLOCK <= buf.Length
    modifies buf
    ensures buf[..] == old(buf[..off]) + S2(hmac, random, key) + old(buf[off + BLOCK..])
  {
    hide MakeDigest;
    ghost var a, z := buf[..off], buf[off + BLOCK..];
    CopyInto(buf, off, random);
    assert buf[off..off + BLOCK] == random;
    var gap := BLOCK - DIGEST;
    var digest := MakeDigest(hmac, key, buf[off..off + BLOCK], gap);
    CopyInto(buf, off + gap, digest);
    PutInside(a, random, z, gap, digest);
  }

  datatype Result = Refused | Replied(out: seq<byte>, complete: bool)

  // serverHandshake: reads C0 and C1, answers, and then waits for C2.
  method ServerHandshake(hmac: Hmac, keys: Keys, input: seq<byte>, random1: seq<byte>, random2: Block)
    returns (res: Result, rest: seq<byte>)
    requires |random1| == BLOCK - 8
    ensures |input| < 1 + BLOCK ==> res == Refused
    ensures |input| >= 1 + BLOCK ==>
      match Reply(hmac, keys, input[0], input[1..1 + BLOCK], random1, random2)
      case None => res == Refused
      case Some(out) => res == Replied(out, |input| >= 1 + 2 * BLOCK)
                        && (res.complete ==> rest == input[1 + 2 * BLOCK..])
  {
    hide ParseC1, S1, S2, FromBE, ToBE, CalcDigestPos;
    rest := input;
    if |input| < 1 + BLOCK {
      return Refused, [];
    }
    if input[0] != 3 {
      return Refused, rest;
    }
    var buf := new byte[1 + 2 * BLOCK](_ => 0);
    buf[0] := 3;
    var c1 := input[1..1 + BLOCK];
    assert buf[..] == [3] + Zeros(BLOCK) + Zeros(BLOCK);
    Narrow(c1[0..4]);
    Narrow(c1[4..8]);
    var cliTime := ByteSliceAsUint(c1[0..4], true);
    var cliVer := ByteSliceAsUint(c1[4..8], true);
    if cliVer != 0 {
      var digest := ParseC1(hmac, c1, keys.clientPartial, keys.serverFull);
      if digest.None? {
        return Refused, rest;
      }
      CreateS1(hmac, buf, 1, cliTime, SERVER_VERSION, random1, keys.serverPartial);
      ghost var s1 := S1(hmac, cliTime, SERVER_VERSION, random1, keys.serverPartial);
      assert buf[..] == [3] + s1 + Zeros(BLOCK);
      CreateS2(hmac, buf, 1 + BLOCK, random2, digest.value);
      assert buf[..] == [3] + s1 + S2(hmac, random2, digest.value);
    } else {
      CopyInto(buf, 1 + BLOCK, c1);
      assert buf[..] == [3] + Zeros(BLOCK) + c1;
    }
    var out := buf[..];
    if |input| < 1 + 2 * BLOCK {
      return Replied(out, false), [];
    }
    res, rest := Replied(out, true), input[1 + 2 * BLOCK..];
  }
}
